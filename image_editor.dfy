/** The frame editor's drag handling: pressing the mouse on the frame starts
    a drag, releasing it on the frame moves the face by the dragged distance,
    rounded and kept within one face size of the frame. */
module ImageEditor {
  import opened Vectors
  import opened MouseDrag

  /** The dropped position clamped field by field, in the order the editor
      does it, to the band that reaches one face size beyond each edge of
      the frame. Whatever the sizes, the last two steps cap each coordinate
      at one face size past the far edge; with non-negative sizes the four
      steps together are a clamp to the band. */
  method ClampToBand(newPos: Vec, size: Size, faceScaleSize: Size) returns (p: Vec)
    ensures p.x <= size.width + faceScaleSize.width && p.y <= size.height + faceScaleSize.height
    ensures NonNegative(size) && NonNegative(faceScaleSize) ==>
      && p.x == Clamp(newPos.x, -faceScaleSize.width, size.width + faceScaleSize.width)
      && p.y == Clamp(newPos.y, -faceScaleSize.height, size.height + faceScaleSize.height)
  {
    p := newPos;
    if p.x + faceScaleSize.width < 0.0 { p := p.(x := -faceScaleSize.width); }
    if p.y + faceScaleSize.height < 0.0 { p := p.(y := -faceScaleSize.height); }
    if p.x - faceScaleSize.width > size.width { p := p.(x := size.width + faceScaleSize.width); }
    if p.y - faceScaleSize.height > size.height { p := p.(y := size.height + faceScaleSize.height); }
  }

  class ImageEditor {
    /** On-screen size and position of the frame, unknown until it loads. */
    var screenSize: Option<Size>
    var screenPos: Option<Vec>
    /** Where the current drag started, if one is in progress. */
    var dragStart: Option<Vec>

    /** The screen rectangle is measured all at once, and a drag can only
        have started on a measured frame. */
    ghost predicate Valid()
      reads this
    {
      (screenSize.Some? <==> screenPos.Some?) && (dragStart.Some? ==> screenPos.Some?)
    }

    predicate Measured()
      reads this
    {
      screenSize.Some? && screenPos.Some?
    }

    constructor ()
      ensures Valid() && screenSize == None && screenPos == None && dragStart == None
    {
      screenSize, screenPos, dragStart := None, None, None;
    }

    /** The frame finished loading and was measured on screen. */
    method OnLoad(width: real, height: real, x: real, y: real)
      requires Valid()
      modifies this
      ensures Valid()
      ensures screenSize == Some(Size(width, height)) && screenPos == Some(Vec(x, y))
      ensures dragStart == old(dragStart)
    {
      screenSize, screenPos := Some(Size(width, height)), Some(Vec(x, y));
    }

    /** The pointer is over the frame, edges included. */
    predicate IsInBounds(p: Vec)
      reads this
      requires Measured()
      ensures IsInBounds(p) <==>
        && screenPos.value.x <= p.x <= screenPos.value.x + screenSize.value.width
        && screenPos.value.y <= p.y <= screenPos.value.y + screenSize.value.height
    {
      InRect(screenPos.value, screenSize.value, p)
    }

    /** A press over the frame starts a drag there; any other press changes
        nothing (before the frame is measured the hit test fails with an
        exception, which also leaves the state as it was). */
    method HandleMouseDown(coord: Vec)
      requires Valid()
      modifies this
      ensures Valid() && screenSize == old(screenSize) && screenPos == old(screenPos)
      ensures dragStart == if Measured() && IsInBounds(coord) then Some(coord) else old(dragStart)
    {
      if Measured() && IsInBounds(coord) {
        dragStart := Some(coord);
      }
    }

    /** A release ends any drag. When a drag was in progress and the release
        is over the frame, the position moved by the dragged distance
        (converted to frame pixels by `toActual`), rounded and clamped, is
        reported; otherwise nothing is. The sizes are image dimensions and
        the scale slider starts at 0, so they are non-negative in practice;
        the exact clamp is stated for that case. */
    method HandleMouseUp(coord: Vec, pos: Vec, size: Size, faceScaleSize: Size, toActual: Vec -> Vec)
      returns (reported: Option<Vec>)
      requires Valid()
      modifies this
      ensures Valid() && dragStart == None
      ensures screenSize == old(screenSize) && screenPos == old(screenPos)
      ensures reported.Some? <==> old(dragStart).Some? && IsInBounds(coord)
      ensures reported.Some? ==>
        reported.value.x <= size.width + faceScaleSize.width && reported.value.y <= size.height + faceScaleSize.height
      ensures reported.Some? && NonNegative(size) && NonNegative(faceScaleSize) ==>
        var diff := toActual(SubtractVectors(coord, old(dragStart).value));
        var x, y := Round(pos.x + diff.x) as real, Round(pos.y + diff.y) as real;
        && reported.value.x == Clamp(x, -faceScaleSize.width, size.width + faceScaleSize.width)
        && reported.value.y == Clamp(y, -faceScaleSize.height, size.height + faceScaleSize.height)
      ensures reported.Some? && NonNegative(size) && NonNegative(faceScaleSize) ==>
        && -faceScaleSize.width <= reported.value.x <= size.width + faceScaleSize.width
        && -faceScaleSize.height <= reported.value.y <= size.height + faceScaleSize.height
    {
      reported := None;
      if dragStart.Some? && IsInBounds(coord) {
        var diff := SubtractVectors(coord, dragStart.value);
        diff := toActual(diff);
        var newPos := Vec(Round(pos.x + diff.x) as real, Round(pos.y + diff.y) as real);
        newPos := ClampToBand(newPos, size, faceScaleSize);
        reported := Some(newPos);
      }
      dragStart := None;
    }
  }
}
