/** The two canvas operations of the edit route, `translate` and
    `resizeCanvas`, built from a crop and a transparent padding exactly as the
    route builds its `extract` and `extend` records. */
module Canvas {
  import opened Raster

  function Max0(n: int): nat { if n > 0 then n else 0 }

  /** A shift by (x, y) leaves nothing to crop when it moves the whole raster
      past its left or top edge. */
  predicate ShiftedOff(img: Image, x: int, y: int) {
    x + img.width <= 0 || y + img.height <= 0
  }

  /** Shift the content of `img` by (x, y). A negative shift crops the leading
      columns (rows) and pads as many transparent ones at the end, so the size
      on that axis is kept; a positive shift pads transparent columns (rows)
      in front and crops nothing, so the canvas grows by x (y). When the crop
      would be empty the result is a blank raster of the input's size. */
  function Translate(img: Image, x: int, y: int): (r: Image)
    requires Valid(img)
    ensures Valid(r)
    ensures ShiftedOff(img, x, y) ==> r == Blank(img.width, img.height)
    ensures !ShiftedOff(img, x, y) ==>
      r.width == img.width + Max0(x) && r.height == img.height + Max0(y)
    ensures forall i, j :: 0 <= i && 0 <= j ==> At(r, i, j) == At(img, i - x, j - y)
  {
    var extract := Region(
      if x < 0 then -x else 0,
      if y < 0 then -y else 0,
      if x < 0 then img.width + x else img.width,
      if y < 0 then img.height + y else img.height);
    var extend := Padding(
      if x > 0 then x else 0,
      if y > 0 then y else 0,
      if x < 0 then -x else 0,
      if y < 0 then -y else 0);
    if extract.width <= 0 || extract.height <= 0 then
      var blank := Blank(img.width, img.height);
      assert forall i, j :: 0 <= i && 0 <= j ==> At(blank, i, j) == At(img, i - x, j - y) by {
        forall i, j | 0 <= i && 0 <= j ensures At(blank, i, j) == At(img, i - x, j - y) {
          assert !InCanvas(img, i - x, j - y);
        }
      }
      blank
    else
      Extend(Extract(img, extract), extend)
  }

  /** Bring the canvas of `img` to exactly newWidth x newHeight: keep the
      top-left part that fits, crop the rest, pad the right and bottom with
      transparency. */
  function ResizeCanvas(img: Image, newWidth: int, newHeight: int): (r: Image)
    requires Valid(img) && newWidth > 0 && newHeight > 0
    ensures Valid(r) && r.width == newWidth && r.height == newHeight
    ensures forall i, j :: InCanvas(r, i, j) ==>
      r.rows[j][i] == if i < img.width && j < img.height then img.rows[j][i] else Transparent
    ensures forall i, j :: InCanvas(r, i, j) ==> At(r, i, j) == At(img, i, j)
  {
    var widthLarger := newWidth > img.width;
    var heightLarger := newHeight > img.height;
    var extract := Region(0, 0,
      if widthLarger then img.width else newWidth,
      if heightLarger then img.height else newHeight);
    var extend := Padding(0, 0,
      if widthLarger then newWidth - img.width else 0,
      if heightLarger then newHeight - img.height else 0);
    var r := Extend(Extract(img, extract), extend);
    assert forall i, j :: InCanvas(r, i, j) ==>
      r.rows[j][i] == if i < img.width && j < img.height then img.rows[j][i] else Transparent
    by {
      forall i, j | InCanvas(r, i, j)
        ensures r.rows[j][i] == if i < img.width && j < img.height then img.rows[j][i] else Transparent
      {
        assert At(r, i, j) == At(img, i, j);
      }
    }
    r
  }

  /** Translate, then fit to a width x height canvas: the last two geometric
      steps of the edit route. Whatever the shift, including one that pushes
      the raster entirely off the canvas, the result has the canvas size and
      shows the input moved by (dx, dy), transparent elsewhere. */
  function PlaceOnCanvas(img: Image, dx: int, dy: int, width: int, height: int): (r: Image)
    requires Valid(img) && width > 0 && height > 0
    ensures Valid(r) && r.width == width && r.height == height
    ensures forall i, j :: InCanvas(r, i, j) ==> At(r, i, j) == At(img, i - dx, j - dy)
  {
    ResizeCanvas(Translate(img, dx, dy), width, height)
  }

  /** Translating by nothing gives the input back. */
  lemma TranslateZero(img: Image)
    requires Valid(img)
    ensures Translate(img, 0, 0) == img
  {
    var r := Translate(img, 0, 0);
    Extensionality(r, img);
  }

  /** Fitting a raster to its own size gives it back. */
  lemma ResizeCanvasToOwnSize(img: Image)
    requires Valid(img)
    ensures ResizeCanvas(img, img.width, img.height) == img
  {
    Extensionality(ResizeCanvas(img, img.width, img.height), img);
  }

  /** Fitting to a size twice is fitting once. */
  lemma ResizeCanvasIdempotent(img: Image, width: int, height: int)
    requires Valid(img) && width > 0 && height > 0
    ensures ResizeCanvas(ResizeCanvas(img, width, height), width, height)
         == ResizeCanvas(img, width, height)
  {
    var once := ResizeCanvas(img, width, height);
    ResizeCanvasToOwnSize(once);
  }

  /** Shifting by (dx, dy) and back by (-dx, -dy) restores every pixel that
      the first shift did not crop away (columns from -dx on, rows from -dy
      on) and leaves the cropped part transparent; the canvas ends up
      |dx| x |dy| larger than the input. A shift that moved the whole raster
      off leaves nothing. */
  lemma {:induction false} TranslateRoundTrip(img: Image, dx: int, dy: int)
    requires Valid(img)
    ensures var back := Translate(Translate(img, dx, dy), -dx, -dy);
      && (ShiftedOff(img, dx, dy) ==> forall i, j :: At(back, i, j) == Transparent)
      && (!ShiftedOff(img, dx, dy) ==>
            && back.width == img.width + (if dx < 0 then -dx else dx)
            && back.height == img.height + (if dy < 0 then -dy else dy)
            && forall i, j :: InCanvas(back, i, j) ==>
                 At(back, i, j) == if i + dx < 0 || j + dy < 0 then Transparent else At(img, i, j))
  {
    var there := Translate(img, dx, dy);
    var back := Translate(there, -dx, -dy);
    if ShiftedOff(img, dx, dy) {
      forall i, j ensures At(back, i, j) == Transparent {
        if 0 <= i && 0 <= j {
          assert At(back, i, j) == At(there, i + dx, j + dy);
          assert At(there, i + dx, j + dy) == Transparent by {
            if 0 <= i + dx && 0 <= j + dy {
              assert !InCanvas(img, i, j);
            }
          }
        }
      }
    } else {
      assert !ShiftedOff(there, -dx, -dy);
      forall i, j | InCanvas(back, i, j)
        ensures At(back, i, j) == if i + dx < 0 || j + dy < 0 then Transparent else At(img, i, j)
      {
        assert At(back, i, j) == At(there, i + dx, j + dy);
      }
    }
  }
}
