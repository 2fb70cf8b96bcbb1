/**
 The drag rule of the Swiper carousel: a horizontal drag longer than a threshold
 goes to the previous slide when it moves right and to the next slide when it
 moves left.
 */
module Drag {
  import opened Transitions

  /** The `dragType` argument of `updateAfterDrag`. */
  datatype DragKind = MouseDrag | TouchDrag | OtherDrag

  /** Distance a mouse drag must exceed, in pixels. */
  const MouseThreshold := 300

  function Abs(x: int): nat {
    if x < 0 then -x else x
  }

  /** The threshold for a drag kind; the touch threshold depends on the window and is given. */
  function Threshold(kind: DragKind, touchThreshold: nat): (r: nat)
    ensures kind == MouseDrag ==> r == 300
    ensures kind == TouchDrag ==> r == touchThreshold
    ensures kind == OtherDrag ==> r == 0
  {
    match kind
    case MouseDrag => MouseThreshold
    case TouchDrag => touchThreshold
    case OtherDrag => 0
  }

  /** The navigation a drag from `startX` to `endX` asks for, if any. */
  function Decide(startX: int, endX: int, threshold: nat): (r: Option<Message>)
    ensures r.Some? <==> Abs(endX - startX) > threshold
    ensures r == Some(Prev) <==> r.Some? && endX > startX
    ensures r == Some(Next) <==> r.Some? && endX < startX
  {
    var movement := endX - startX;
    if movement > 0 && Abs(movement) > threshold then Some(Prev)
    else if movement < 0 && Abs(movement) > threshold then Some(Next)
    else None
  }

  /** Reversing a drag reverses the navigation it asks for. */
  lemma DecideMirrors(startX: int, endX: int, threshold: nat)
    ensures Decide(startX, endX, threshold) == Some(Prev) <==> Decide(endX, startX, threshold) == Some(Next)
    ensures Decide(startX, endX, threshold) == None <==> Decide(endX, startX, threshold) == None
  {
  }

  /** A mouse drag of exactly 300 pixels does nothing; one pixel more navigates. */
  lemma MouseThresholdIsStrict(startX: int)
    ensures Decide(startX, startX + 300, Threshold(MouseDrag, 0)) == None
    ensures Decide(startX, startX - 300, Threshold(MouseDrag, 0)) == None
    ensures Decide(startX, startX + 301, Threshold(MouseDrag, 0)) == Some(Prev)
    ensures Decide(startX, startX - 301, Threshold(MouseDrag, 0)) == Some(Next)
  {
  }
}
