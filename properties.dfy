/**
 What the slide state machine guarantees across whole runs: the carousel is
 always settled, mid-transition or stuck, the index never leaves the slides,
 requests made during a transition are dropped, and navigation wraps around.
 */
module TransitionProperties {
  import opened Transitions

  /** Initialisation ends mid-transition when `startIndex` names a slide, and stuck otherwise. */
  lemma InitialIsReachable(count: nat, startIndex: int)
    ensures InRange(startIndex, count) ==> InTransition(Begin(Initial(count, startIndex)))
    ensures !InRange(startIndex, count) ==> Stuck(Begin(Initial(count, startIndex)))
  {
  }

  /** An accepted navigation or jump from a settled carousel starts a well-staged transition. */
  lemma BeginFromSettled(s: State, target: int)
    requires Settled(s) && InRange(target, |s.slides|)
    ensures InTransition(Begin(s.(prev := Some(s.current), current := target)))
  {
  }

  /** Completing a well-staged transition leaves the carousel settled on the incoming slide. */
  lemma CompleteSettles(s: State)
    requires InTransition(s)
    ensures Settled(Complete(s))
  {
  }

  lemma StepPreservesReachable(s: State, e: Event)
    requires Reachable(s)
    ensures Reachable(Step(s, e))
  {
  }

  /** Every run from a reachable carousel ends in a reachable one. */
  lemma {:induction false} RunPreservesReachable(s: State, events: seq<Event>)
    requires Reachable(s)
    ensures Reachable(Run(s, events))
    decreases |events|
  {
    if events != [] {
      StepPreservesReachable(s, events[0]);
      RunPreservesReachable(Step(s, events[0]), events[1..]);
    }
  }

  /** A current index that names a slide keeps naming one, whatever happens. */
  lemma {:induction false} RunKeepsIndexInRange(s: State, events: seq<Event>)
    requires WellFormed(s) && InRange(s.current, |s.slides|)
    ensures InRange(Run(s, events).current, |s.slides|)
    decreases |events|
  {
    if events != [] {
      RunKeepsIndexInRange(Step(s, events[0]), events[1..]);
    }
  }

  /** A stuck carousel ignores everything: an out-of-range `startIndex` freezes the widget for good. */
  lemma {:induction false} StuckIsFinal(s: State, events: seq<Event>)
    requires Stuck(s)
    ensures Run(s, events) == s
    decreases |events|
  {
    if events != [] {
      StuckIsFinal(Step(s, events[0]), events[1..]);
    }
  }

  /** While a transition runs, every navigation and jump is dropped until the completion runs. */
  lemma {:induction false} RequestsDuringTransitionAreDropped(s: State, events: seq<Event>)
    requires WellFormed(s) && s.changing
    requires forall k | 0 <= k < |events| :: events[k] != Finish
    ensures Run(s, events) == s
    decreases |events|
  {
    if events != [] {
      RequestsDuringTransitionAreDropped(Step(s, events[0]), events[1..]);
    }
  }

  /** The next slide after the last one is the first, and the one before the first is the last. */
  lemma WrapAround(s: State)
    requires Settled(s) && |s.slides| > 1
    ensures s.current == |s.slides| - 1 ==> ChangeSlide(s, Next).current == 0
    ensures s.current == 0 ==> ChangeSlide(s, Prev).current == |s.slides| - 1
  {
  }

  /** A completed "next" followed by "prev" comes back to the slide it started from, and the other way round. */
  lemma NextThenPrevReturns(s: State)
    requires Settled(s) && |s.slides| > 1
    ensures Settled(Complete(ChangeSlide(s, Next)))
    ensures ChangeSlide(Complete(ChangeSlide(s, Next)), Prev).current == s.current
    ensures Settled(Complete(ChangeSlide(s, Prev)))
    ensures ChangeSlide(Complete(ChangeSlide(s, Prev)), Next).current == s.current
  {
  }

  /**
   `slideTo` on the slide already shown runs a full transition whose outgoing and
   incoming slide coincide: the final lowering of the outgoing slide hits the
   active one, so every slide ends at the same z-index.
   */
  lemma SlideToCurrentLowersActive(s: State)
    requires Settled(s)
    ensures Settled(Complete(SlideTo(s, s.current)))
    ensures Complete(SlideTo(s, s.current)).slides[s.current].active
    ensures forall j | 0 <= j < |s.slides| :: Complete(SlideTo(s, s.current)).slides[j].zIndex == Lowered
  {
  }

  /** An unrecognised message keeps the index but still runs a transition on the shown slide. */
  lemma OtherMessageRestartsCurrent(s: State)
    requires Settled(s) && |s.slides| > 1
    ensures ChangeSlide(s, Other).current == s.current
    ensures InTransition(ChangeSlide(s, Other))
    ensures ChangeSlide(s, Other).prev == Some(s.current)
  {
  }
}
