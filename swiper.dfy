/**
 The `Swiper` object: its slide index, its `changing` flag, the slide it is
 leaving and the per-slide z-index and classes, updated in place. Each method is
 proved against the value-level state machine of module Transitions.
 */
module Carousel {
  import opened Transitions
  import opened Drag
  import TransitionProperties

  class Swiper {
    var slidesCount: nat
    var currentSlide: int
    var changing: bool
    var prevSlide: Option<nat>
    /** Per slide element: z-index, `active` class, `changing` class. */
    var slides: array<Slide>
    var dragStartX: int
    var dragEndX: int

    ghost predicate Valid()
      reads this, slides
    {
      slidesCount == slides.Length && WellFormed(Snapshot())
    }

    /** The carousel as a value. */
    ghost function Snapshot(): State
      reads this, slides
    {
      State(currentSlide, changing, prevSlide, slides[..])
    }

    /** `constructor`, `initSlides` and the first `setCurrentSlide` of `init`: `startIndex` is taken as given. */
    constructor (count: nat, startIndex: int)
      ensures Valid() && fresh(slides)
      ensures Snapshot() == Begin(Initial(count, startIndex))
      ensures dragStartX == 0 && dragEndX == 0
      ensures Reachable(Snapshot())
    {
      slidesCount := count;
      currentSlide := startIndex;
      changing := false;
      prevSlide := None;
      slides := new Slide[count](_ => Slide(Unset, false, false));
      dragStartX, dragEndX := 0, 0;
      new;
      assert Snapshot() == Initial(count, startIndex);
      SetCurrentSlide();
      TransitionProperties.InitialIsReachable(count, startIndex);
    }

    /** `setCurrentSlide`: the first phase of a transition. */
    method SetCurrentSlide()
      requires Valid()
      modifies this`changing, slides
      ensures Valid()
      ensures Snapshot() == Begin(old(Snapshot()))
    {
      changing := true;
      if prevSlide.Some? {
        var p := prevSlide.value;
        slides[p] := slides[p].(zIndex := Outgoing, active := false, changing := true);
      }
      var i := 0;
      while i < slides.Length
        invariant 0 <= i <= slides.Length && changing
        invariant forall k | 0 <= k < i :: slides[k] == BeginSlide(old(slides[k]), k, currentSlide, prevSlide)
        invariant forall k | i <= k < slides.Length && Some(k) == prevSlide ::
                    slides[k] == BeginSlide(old(slides[k]), k, currentSlide, prevSlide)
        invariant forall k | i <= k < slides.Length && Some(k) != prevSlide :: slides[k] == old(slides[k])
      {
        // The slide at currentSlide is activated by CompleteChange.
        if i != currentSlide && Some(i) != prevSlide {
          slides[i] := slides[i].(zIndex := Lowered);
        }
        i := i + 1;
      }
      assert forall k | 0 <= k < slides.Length :: slides[..][k] == Begin(old(Snapshot())).slides[k];
      assert slides[..] == Begin(old(Snapshot())).slides;
    }

    /** The frame callbacks of `_setSlideActive`: the second phase, which ends the transition. */
    method CompleteChange()
      requires Valid() && Pending(Snapshot())
      modifies this`changing, slides
      ensures Valid()
      ensures Snapshot() == Complete(old(Snapshot()))
      ensures Reachable(old(Snapshot())) ==> Reachable(Snapshot())
    {
      if Reachable(Snapshot()) {
        TransitionProperties.StepPreservesReachable(Snapshot(), Finish);
      }
      slides[currentSlide] := slides[currentSlide].(zIndex := Raised);
      slides[currentSlide] := slides[currentSlide].(active := true);
      changing := false;
      if prevSlide.Some? {
        var p := prevSlide.value;
        slides[p] := slides[p].(changing := false);
        slides[p] := slides[p].(zIndex := Lowered);
      }
    }

    method ChangeSlide(msg: Message)
      requires Valid()
      modifies this`currentSlide, this`changing, this`prevSlide, slides
      ensures Valid()
      ensures Snapshot() == Transitions.ChangeSlide(old(Snapshot()), msg)
      ensures Reachable(old(Snapshot())) ==> Reachable(Snapshot())
    {
      if Reachable(Snapshot()) {
        TransitionProperties.StepPreservesReachable(Snapshot(), Navigate(msg));
      }
      if slides.Length <= 1 {
        return;
      }
      if changing {
        return;
      }
      prevSlide := if 0 <= currentSlide < slides.Length then Some(currentSlide) else None;
      match msg {
        case Next =>
          if currentSlide + 1 >= slidesCount {
            currentSlide := 0;
          } else {
            currentSlide := currentSlide + 1;
          }
        case Prev =>
          if currentSlide - 1 < 0 {
            currentSlide := slidesCount - 1;
          } else {
            currentSlide := currentSlide - 1;
          }
        case Other =>
      }
      SetCurrentSlide();
    }

    method Next()
      requires Valid()
      modifies this`currentSlide, this`changing, this`prevSlide, slides
      ensures Valid()
      ensures Snapshot() == Transitions.ChangeSlide(old(Snapshot()), Message.Next)
    {
      ChangeSlide(Message.Next);
    }

    method Prev()
      requires Valid()
      modifies this`currentSlide, this`changing, this`prevSlide, slides
      ensures Valid()
      ensures Snapshot() == Transitions.ChangeSlide(old(Snapshot()), Message.Prev)
    {
      ChangeSlide(Message.Prev);
    }

    method SlideTo(index: int)
      requires Valid()
      modifies this`currentSlide, this`changing, this`prevSlide, slides
      ensures Valid()
      ensures Snapshot() == Transitions.SlideTo(old(Snapshot()), index)
      ensures Reachable(old(Snapshot())) ==> Reachable(Snapshot())
    {
      if Reachable(Snapshot()) {
        TransitionProperties.StepPreservesReachable(Snapshot(), Jump(index));
      }
      if changing {
        return;
      }
      if index >= slidesCount || index < 0 {
        return;
      }
      prevSlide := if 0 <= currentSlide < slides.Length then Some(currentSlide) else None;
      currentSlide := index;
      SetCurrentSlide();
    }

    /** Where a mouse or touch drag starts. */
    method DragStart(x: int)
      modifies this`dragStartX
      ensures dragStartX == x
    {
      dragStartX := x;
    }

    /** Where a mouse or touch drag ends. */
    method DragEnd(x: int)
      modifies this`dragEndX
      ensures dragEndX == x
    {
      dragEndX := x;
    }

    /** `updateAfterDrag`: navigate as the recorded drag asks, if it asks for anything. */
    method UpdateAfterDrag(kind: DragKind, touchThreshold: nat)
      requires Valid()
      modifies this`currentSlide, this`changing, this`prevSlide, slides
      ensures Valid()
      ensures Snapshot() ==
                match Decide(dragStartX, dragEndX, Threshold(kind, touchThreshold))
                case Some(msg) => Transitions.ChangeSlide(old(Snapshot()), msg)
                case None => old(Snapshot())
    {
      var movement := dragEndX - dragStartX;
      var distance := if movement < 0 then -movement else movement;
      var threshold := match kind
        case MouseDrag => MouseThreshold
        case TouchDrag => touchThreshold
        case OtherDrag => 0;
      if movement > 0 && distance > threshold {
        ChangeSlide(Message.Prev);
      } else if movement < 0 && distance > threshold {
        ChangeSlide(Message.Next);
      }
    }
  }
}
