/** The face anchor editor's drag handling: the same press/release protocol
    as the frame editor, with the dropped anchor kept inside the face. */
module FaceCenterer {
  import opened Vectors
  import opened MouseDrag

  /** The dropped anchor clamped field by field, in the order the editor
      does it, to the face's own rectangle [0, width] x [0, height]. Whatever
      the size, the last two steps cap each coordinate at the far edge; with a
      non-negative size the four steps together are a clamp. */
  method ClampToFace(newPos: Vec, size: Size) returns (p: Vec)
    ensures p.x <= size.width && p.y <= size.height
    ensures NonNegative(size) ==>
      p.x == Clamp(newPos.x, 0.0, size.width) && p.y == Clamp(newPos.y, 0.0, size.height)
  {
    p := newPos;
    if p.x < 0.0 { p := p.(x := 0.0); }
    if p.y < 0.0 { p := p.(y := 0.0); }
    if p.x > size.width { p := p.(x := size.width); }
    if p.y > size.height { p := p.(y := size.height); }
  }

  class FaceCenterer {
    /** On-screen size and position of the face, unknown until it loads. */
    var screenSize: Option<Size>
    var screenPos: Option<Vec>
    /** Where the current drag started, if one is in progress. */
    var dragStart: Option<Vec>

    /** The screen rectangle is measured all at once, and a drag can only
        have started on a measured face. */
    ghost predicate Valid()
      reads this
    {
      (screenSize.Some? <==> screenPos.Some?) && (dragStart.Some? ==> screenPos.Some?)
    }

    predicate Measured()
      reads this
    {
      screenSize.Some? && screenPos.Some?
    }

    constructor ()
      ensures Valid() && screenSize == None && screenPos == None && dragStart == None
    {
      screenSize, screenPos, dragStart := None, None, None;
    }

    /** The face was (re)measured on screen, on load and on window resize. */
    method GetScreenSizePos(width: real, height: real, x: real, y: real)
      requires Valid()
      modifies this
      ensures Valid()
      ensures screenSize == Some(Size(width, height)) && screenPos == Some(Vec(x, y))
      ensures dragStart == old(dragStart)
    {
      screenSize, screenPos := Some(Size(width, height)), Some(Vec(x, y));
    }

    /** The pointer is over the face, edges included. */
    predicate IsInBounds(p: Vec)
      reads this
      requires Measured()
      ensures IsInBounds(p) <==>
        && screenPos.value.x <= p.x <= screenPos.value.x + screenSize.value.width
        && screenPos.value.y <= p.y <= screenPos.value.y + screenSize.value.height
    {
      InRect(screenPos.value, screenSize.value, p)
    }

    /** A press over the face starts a drag there; any other press changes
        nothing (before the face is measured the hit test fails with an
        exception, which also leaves the state as it was). */
    method HandleMouseDown(coord: Vec)
      requires Valid()
      modifies this
      ensures Valid() && screenSize == old(screenSize) && screenPos == old(screenPos)
      ensures dragStart == if Measured() && IsInBounds(coord) then Some(coord) else old(dragStart)
    {
      if Measured() && IsInBounds(coord) {
        dragStart := Some(coord);
      }
    }

    /** A release ends any drag. When a drag was in progress and the release
        is over the face, the anchor moved by the dragged distance (converted
        to face pixels by `toActual`), rounded and clamped to the face, is
        reported; otherwise nothing is. The size is the face image's, so it
        is non-negative in practice; the exact clamp is stated for that case. */
    method HandleMouseUp(coord: Vec, pos: Vec, size: Size, toActual: Vec -> Vec)
      returns (reported: Option<Vec>)
      requires Valid()
      modifies this
      ensures Valid() && dragStart == None
      ensures screenSize == old(screenSize) && screenPos == old(screenPos)
      ensures reported.Some? <==> old(dragStart).Some? && IsInBounds(coord)
      ensures reported.Some? ==> reported.value.x <= size.width && reported.value.y <= size.height
      ensures reported.Some? && NonNegative(size) ==>
        var diff := toActual(SubtractVectors(coord, old(dragStart).value));
        var x, y := Round(pos.x + diff.x) as real, Round(pos.y + diff.y) as real;
        reported.value == Vec(Clamp(x, 0.0, size.width), Clamp(y, 0.0, size.height))
      ensures reported.Some? && NonNegative(size) ==>
        0.0 <= reported.value.x <= size.width && 0.0 <= reported.value.y <= size.height
    {
      reported := None;
      if dragStart.Some? && IsInBounds(coord) {
        var diff := SubtractVectors(coord, dragStart.value);
        diff := toActual(diff);
        var newPos := Vec(Round(pos.x + diff.x) as real, Round(pos.y + diff.y) as real);
        newPos := ClampToFace(newPos, size);
        reported := Some(newPos);
      }
      dragStart := None;
    }
  }
}
