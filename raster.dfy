/** Pixel grids and the three canvas primitives of the image library that the
    geometry code relies on: a blank transparent canvas, cropping a rectangle
    ("extract") and padding with transparency ("extend"). */
module Raster {

  /** An RGBA pixel. */
  datatype Pixel = Pixel(r: int, g: int, b: int, alpha: int)

  /** The fill colour used for every new area: black with zero alpha. */
  const Transparent := Pixel(0, 0, 0, 0)

  /** A raster: rows[y][x] is the pixel in column x of row y. */
  datatype Image = Image(width: nat, height: nat, rows: seq<seq<Pixel>>)

  /** A decoded raster: positive size and every row `width` pixels long.
      The image library cannot represent an empty raster. */
  predicate Valid(img: Image) {
    img.width > 0 && img.height > 0 &&
    |img.rows| == img.height &&
    forall y :: 0 <= y < |img.rows| ==> |img.rows[y]| == img.width
  }

  predicate InCanvas(img: Image, x: int, y: int) {
    0 <= x < img.width && 0 <= y < img.height
  }

  /** The pixel at (x, y), with the plane outside the raster transparent. */
  function At(img: Image, x: int, y: int): (p: Pixel)
    requires Valid(img)
    ensures !InCanvas(img, x, y) ==> p == Transparent
    ensures InCanvas(img, x, y) ==> p == img.rows[y][x]
  {
    if InCanvas(img, x, y) then img.rows[y][x] else Transparent
  }

  /** Two rasters of the same size that agree on every pixel are equal. */
  lemma {:induction false} Extensionality(a: Image, b: Image)
    requires Valid(a) && Valid(b)
    requires a.width == b.width && a.height == b.height
    requires forall x, y :: InCanvas(a, x, y) ==> At(a, x, y) == At(b, x, y)
    ensures a == b
  {
    forall y | 0 <= y < a.height
      ensures a.rows[y] == b.rows[y]
    {
      forall x | 0 <= x < a.width
        ensures a.rows[y][x] == b.rows[y][x]
      {
        assert At(a, x, y) == At(b, x, y);
      }
    }
  }

  /** A fully transparent raster of the given size (createPng). */
  function Blank(width: int, height: int): (r: Image)
    requires width > 0 && height > 0
    ensures Valid(r) && r.width == width && r.height == height
    ensures forall x, y :: At(r, x, y) == Transparent
  {
    Image(width, height, seq(height, _ => seq(width, _ => Transparent)))
  }

  /** A crop rectangle: the `extract` options record. */
  datatype Region = Region(left: int, top: int, width: int, height: int)

  /** Padding amounts on each side: the `extend` options record. */
  datatype Padding = Padding(left: int, top: int, right: int, bottom: int)

  /** The image library accepts a crop only when it is non-empty and lies
      inside the raster. */
  predicate Fits(img: Image, reg: Region) {
    0 <= reg.left && 0 <= reg.top && 0 < reg.width && 0 < reg.height &&
    reg.left + reg.width <= img.width && reg.top + reg.height <= img.height
  }

  /** Crop `reg` out of `img`; pixel (x, y) of the result is pixel
      (left + x, top + y) of the input. */
  function Extract(img: Image, reg: Region): (r: Image)
    requires Valid(img) && Fits(img, reg)
    ensures Valid(r) && r.width == reg.width && r.height == reg.height
    ensures forall x, y :: InCanvas(r, x, y) ==> At(r, x, y) == At(img, reg.left + x, reg.top + y)
  {
    Image(reg.width, reg.height,
      seq(reg.height, y requires 0 <= y < reg.height =>
        seq(reg.width, x requires 0 <= x < reg.width => img.rows[reg.top + y][reg.left + x])))
  }

  predicate NonNegative(pad: Padding) {
    pad.left >= 0 && pad.top >= 0 && pad.right >= 0 && pad.bottom >= 0
  }

  /** Pad `img` with transparent pixels; the input keeps its pixels and moves
      by (left, top). */
  function Extend(img: Image, pad: Padding): (r: Image)
    requires Valid(img) && NonNegative(pad)
    ensures Valid(r)
    ensures r.width == pad.left + img.width + pad.right
    ensures r.height == pad.top + img.height + pad.bottom
    ensures forall x, y :: 0 <= x && 0 <= y ==> At(r, x, y) == At(img, x - pad.left, y - pad.top)
  {
    var w := pad.left + img.width + pad.right;
    var h := pad.top + img.height + pad.bottom;
    Image(w, h,
      seq(h, y requires 0 <= y < h =>
        seq(w, x requires 0 <= x < w => At(img, x - pad.left, y - pad.top))))
  }
}
