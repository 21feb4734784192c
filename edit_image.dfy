/** The face placement of POST /api/editImage: scale the face, rotate it,
    move its anchor onto the requested position, fit it to the frame's canvas
    and composite it in front of or behind the frame. */
module EditImage {
  import opened Raster
  import opened Canvas
  import opened Vectors

  /** The operations the route delegates whose pixel arithmetic is not
      modelled: resampling to a size (nearest neighbour), raster rotation
      about the centre with a grown transparent canvas, alpha compositing
      (`composite(base, overlay)` blends overlay over base), and the
      trigonometric `rotateVector` with its 4-decimal rounding. */
  datatype Primitives = Primitives(
    resize: (Image, int, int) -> Image,
    rotate: (Image, real) -> Image,
    composite: (Image, Image) -> Image,
    rotateVector: (Vec, real) -> Vec)

  /** What the route relies on from those operations: resampling to a
      positive size yields a raster of exactly that size, rotation yields a
      raster, and compositing an overlay no larger than its base yields a
      raster of the base's size. (The library refuses a larger overlay.) */
  ghost predicate Conforms(lib: Primitives) {
    && (forall img, w, h :: Valid(img) && w > 0 && h > 0 ==>
          var s := lib.resize(img, w, h); Valid(s) && s.width == w && s.height == h)
    && (forall img, a :: Valid(img) ==> Valid(lib.rotate(img, a)))
    && (forall base, overlay ::
          Valid(base) && Valid(overlay) && overlay.width <= base.width && overlay.height <= base.height ==>
          var c := lib.composite(base, overlay); Valid(c) && c.width == base.width && c.height == base.height)
  }

  /** A rotation by zero degrees: the raster comes back unchanged, and so
      does a vector with integer components (cos 0 = 1, sin 0 = 0, and
      rounding an integer to four decimals is exact). */
  ghost predicate RotationZeroIsIdentity(lib: Primitives) {
    && (forall img :: Valid(img) ==> lib.rotate(img, 0.0) == img)
    && (forall v :: Integral(v) ==> lib.rotateVector(v, 0.0) == v)
  }

  /** Both components are whole numbers. */
  predicate Integral(v: Vec) {
    v.x.Floor as real == v.x && v.y.Floor as real == v.y
  }

  datatype Dims = Dims(width: int, height: int)

  /** A point after integer parsing. */
  datatype Point = Point(x: int, y: int)

  function AsVec(p: Point): Vec { Vec(p.x as real, p.y as real) }

  /** The parsed form fields of one request (the two rasters already
      decoded). */
  datatype Request = Request(
    face: Image,
    image: Image,
    faceSize: Size,
    gifSize: Dims,
    faceScaleSize: Size,
    faceCenter: Vec,
    facePos: Vec,
    faceRot: real,
    faceLayer: string)

  /** What the route answers: the edited frame, or nothing when an image
      library call rejects its input and the handler's promise rejects. */
  datatype Response = Sent(image: Image) | Failed

  /** The rasters are decoded and the image library behaves as described;
      every number of the request is left free. */
  ghost predicate Admissible(lib: Primitives, req: Request) {
    Conforms(lib) && Valid(req.face) && Valid(req.image)
  }

  /** The scaled face size after integer parsing: zero on an axis exactly
      when the requested size there lies strictly between -1 and 1, negative
      exactly when it is -1 or less. */
  function ScaledSize(req: Request): (d: Dims)
    ensures d.width == 0 <==> -1.0 < req.faceScaleSize.width < 1.0
    ensures d.height == 0 <==> -1.0 < req.faceScaleSize.height < 1.0
    ensures d.width < 0 <==> req.faceScaleSize.width <= -1.0
    ensures d.height < 0 <==> req.faceScaleSize.height <= -1.0
  {
    Dims(Trunc(req.faceScaleSize.width), Trunc(req.faceScaleSize.height))
  }

  /** The face was scaled down to nothing on some axis. */
  predicate ScaledAway(req: Request) {
    ScaledSize(req).width == 0 || ScaledSize(req).height == 0
  }

  /** The scaled size is positive on both axes, so the resampler accepts
      it. */
  predicate Scales(req: Request) {
    ScaledSize(req).width > 0 && ScaledSize(req).height > 0
  }

  /** The centre of the scaled face, truncated: integer halving of a
      non-negative scaled size. */
  function Center(req: Request): (c: Point)
    ensures ScaledSize(req).width >= 0 ==> c.x == ScaledSize(req).width / 2
    ensures ScaledSize(req).height >= 0 ==> c.y == ScaledSize(req).height / 2
  {
    var s := ScaledSize(req);
    var mid := GetCenter(Size(s.width as real, s.height as real));
    var c := Point(Trunc(mid.x), Trunc(mid.y));
    assert s.width >= 0 ==> c.x == s.width / 2 by {
      if s.width >= 0 { HalfTrunc(s.width); }
    }
    assert s.height >= 0 ==> c.y == s.height / 2 by {
      if s.height >= 0 { HalfTrunc(s.height); }
    }
    c
  }

  /** Both components multiplied by k. */
  function ScaleVector(v: Vec, k: real): Vec {
    Vec(v.x * k, v.y * k)
  }

  /** Scaled width over native width. */
  function Ratio(req: Request): real
    requires req.faceSize.width != 0.0
  {
    ScaledSize(req).width as real / req.faceSize.width
  }

  /** The anchor rescaled into the scaled face by the width ratio (used on
      both axes), truncated: less than a pixel from the exact rescaled
      anchor, and equal to it when that is whole. */
  function ScaledAnchor(req: Request): (p: Point)
    requires req.faceSize.width != 0.0
    ensures var exact := ScaleVector(req.faceCenter, Ratio(req));
            && -1.0 < exact.x - p.x as real < 1.0
            && -1.0 < exact.y - p.y as real < 1.0
            && (Integral(exact) ==> AsVec(p) == exact)
  {
    var scaled := ScaleVector(req.faceCenter, Ratio(req));
    TruncWhole(scaled.x);
    TruncWhole(scaled.y);
    Point(Trunc(scaled.x), Trunc(scaled.y))
  }

  /** The target position, truncated: less than a pixel from the requested
      position, and equal to it when that is whole. */
  function Target(req: Request): (p: Point)
    ensures -1.0 < req.facePos.x - p.x as real < 1.0
    ensures -1.0 < req.facePos.y - p.y as real < 1.0
    ensures Integral(req.facePos) ==> AsVec(p) == req.facePos
  {
    TruncWhole(req.facePos.x);
    TruncWhole(req.facePos.y);
    Point(Trunc(req.facePos.x), Trunc(req.facePos.y))
  }

  function ScaledFace(lib: Primitives, req: Request): (r: Image)
    requires Admissible(lib, req) && Scales(req)
    ensures Valid(r) && r.width == ScaledSize(req).width && r.height == ScaledSize(req).height
  {
    lib.resize(req.face, ScaledSize(req).width, ScaledSize(req).height)
  }

  /** The scaled face rotated by faceRot degrees; at zero degrees, under a
      rotation that is the identity there, the scaled face itself. */
  function RotatedFace(lib: Primitives, req: Request): (r: Image)
    requires Admissible(lib, req) && Scales(req)
    ensures Valid(r)
    ensures req.faceRot == 0.0 && RotationZeroIsIdentity(lib) ==> r == ScaledFace(lib, req)
  {
    lib.rotate(ScaledFace(lib, req), req.faceRot)
  }

  /** Where the anchor sits in the rotated raster: the rotated raster's own
      centre plus the rotated centre-to-anchor vector. At zero rotation that
      is the untruncated centre of the scaled face plus the offset of the
      anchor from the truncated centre. */
  function RotatedAnchor(lib: Primitives, req: Request): (a: Vec)
    requires Admissible(lib, req) && Scales(req) && req.faceSize.width != 0.0
    ensures req.faceRot == 0.0 && RotationZeroIsIdentity(lib) ==>
      && a.x == ScaledSize(req).width as real / 2.0 + (ScaledAnchor(req).x - Center(req).x) as real
      && a.y == ScaledSize(req).height as real / 2.0 + (ScaledAnchor(req).y - Center(req).y) as real
  {
    var anchor := ScaledAnchor(req);
    var center := Center(req);
    var c2fc := SubtractVectors(AsVec(anchor), AsVec(center));
    assert c2fc == AsVec(Point(anchor.x - center.x, anchor.y - center.y));
    var rotatedC2fc := lib.rotateVector(c2fc, req.faceRot);
    var rotated := RotatedFace(lib, req);
    AddVectors(GetCenter(Size(rotated.width as real, rotated.height as real)), rotatedC2fc)
  }

  /** The offset that moves the rotated anchor onto the target, truncated
      toward zero: it carries the rotated anchor to less than one pixel from
      the target on each axis. A face of zero native width makes the ratio
      infinite or NaN, the rescaled anchor parses to NaN, and NaN reaches
      both offsets; every comparison in translate is then false, which is a
      shift by nothing. */
  function Shift(lib: Primitives, req: Request): (s: Point)
    requires Admissible(lib, req) && Scales(req)
    ensures req.faceSize.width == 0.0 ==> s == Point(0, 0)
    ensures req.faceSize.width != 0.0 ==>
      var a := RotatedAnchor(lib, req);
      var t := Target(req);
      && t.x as real - 1.0 < a.x + s.x as real < t.x as real + 1.0
      && t.y as real - 1.0 < a.y + s.y as real < t.y as real + 1.0
  {
    if req.faceSize.width == 0.0 then Point(0, 0)
    else
      var a := RotatedAnchor(lib, req);
      var t := AsVec(Target(req));
      Point(Trunc(t.x - a.x), Trunc(t.y - a.y))
  }

  /** The rotated face shifted by `s` and fitted to a gifSize canvas, ready
      to be composited: gifSize-sized, and showing the rotated face moved by
      `s`, transparent elsewhere. The route shifts by `Shift(lib, req)`. */
  function PlacedFace(lib: Primitives, req: Request, s: Point): (r: Image)
    requires Admissible(lib, req) && Scales(req)
    requires req.gifSize.width > 0 && req.gifSize.height > 0
    ensures Valid(r) && r.width == req.gifSize.width && r.height == req.gifSize.height
    ensures var rotated := RotatedFace(lib, req);
            forall i, j :: InCanvas(r, i, j) ==> At(r, i, j) == At(rotated, i - s.x, j - s.y)
  {
    var rotated := RotatedFace(lib, req);
    PlaceOnCanvas(rotated, s.x, s.y, req.gifSize.width, req.gifSize.height)
  }

  /** The compositor refuses the request's layering: for the layer "back"
      the frame is the overlay on the gifSize canvas, for any other layer the
      gifSize canvas is the overlay on the frame, and an overlay may not be
      larger than its base. */
  predicate CompositeRefused(req: Request) {
    if req.faceLayer == "back" then
      !(req.image.width <= req.gifSize.width && req.image.height <= req.gifSize.height)
    else
      !(req.gifSize.width <= req.image.width && req.gifSize.height <= req.image.height)
  }

  /** For a face not scaled away: the image library rejects one of the
      route's calls, the resampler for a negative scaled size, the canvas
      crop of resizeCanvas for a gifSize that is not positive, or the
      compositor. */
  predicate Refused(req: Request) {
    || !Scales(req)
    || req.gifSize.width <= 0 || req.gifSize.height <= 0
    || CompositeRefused(req)
  }

  /** gifSize is the frame's own size, as the editor sends it. */
  predicate FrameSized(req: Request) {
    req.gifSize == Dims(req.image.width, req.image.height)
  }

  /** The request's numbers after the route's integer parsing. The rescaled
      anchor is None when it parses to NaN. */
  datatype Parsed = Parsed(scaleWidth: real, scaleHeight: real, center: Vec, faceCenter: Option<Vec>, facePos: Vec, faceRot: real)

  /** The parsing prologue of the route: every record goes through
      objValsToInts, the centre of the scaled size is truncated, and the
      anchor is rescaled by the width ratio before truncation. A zero native
      width leaves the rescaled anchor NaN. The rotation is a bare number, so
      objValsToInts leaves it as it is. */
  method ParseFields(req: Request) returns (p: Parsed)
    ensures p.scaleWidth == ScaledSize(req).width as real && p.scaleHeight == ScaledSize(req).height as real
    ensures p.center == AsVec(Center(req))
    ensures req.faceSize.width == 0.0 ==> p.faceCenter == None
    ensures req.faceSize.width != 0.0 ==> p.faceCenter == Some(AsVec(ScaledAnchor(req)))
    ensures p.facePos == AsVec(Target(req))
    ensures p.faceRot == req.faceRot
  {
    var faceScaleSize := new JsObject(map["width" := req.faceScaleSize.width, "height" := req.faceScaleSize.height]);
    faceScaleSize := ObjValsToInts(faceScaleSize);
    var scaleWidth := faceScaleSize.fields["width"];
    var scaleHeight := faceScaleSize.fields["height"];
    var center := ParsePoint(GetCenter(Size(scaleWidth, scaleHeight)));
    var faceCenter: Option<Vec> := None;
    if req.faceSize.width != 0.0 {
      var ratio := scaleWidth / req.faceSize.width;
      assert ratio == Ratio(req);
      var scaled := ParsePoint(ScaleVector(req.faceCenter, ratio));
      faceCenter := Some(scaled);
    }
    var facePos := ParsePoint(req.facePos);
    p := Parsed(scaleWidth, scaleHeight, center, faceCenter, facePos, req.faceRot);
  }

  /** objValsToInts on an {x, y} record: each component truncated toward
      zero. */
  method ParsePoint(v: Vec) returns (r: Vec)
    ensures r == Vec(Trunc(v.x) as real, Trunc(v.y) as real)
  {
    var obj := new JsObject(map["x" := v.x, "y" := v.y]);
    obj := ObjValsToInts(obj);
    r := Vec(obj.fields["x"], obj.fields["y"]);
  }

  /** The route. A face scaled to nothing returns the frame itself. Otherwise
      the placed face is composited over the frame, or, for the layer "back",
      the frame over the placed face, unless the image library refuses one
      of the calls. A request whose gifSize is the frame's size and whose
      scale is above -1 always gets a frame-sized answer. */
  method EditImage(lib: Primitives, req: Request) returns (out: Response)
    requires Admissible(lib, req)
    ensures ScaledAway(req) ==> out == Sent(req.image)
    ensures !ScaledAway(req) ==> (out == Failed <==> Refused(req))
    ensures !ScaledAway(req) && !Refused(req) && req.faceLayer == "back" ==>
      out == Sent(lib.composite(PlacedFace(lib, req, Shift(lib, req)), req.image))
    ensures !ScaledAway(req) && !Refused(req) && req.faceLayer != "back" ==>
      out == Sent(lib.composite(req.image, PlacedFace(lib, req, Shift(lib, req))))
    ensures out.Sent? ==> Valid(out.image)
    ensures out.Sent? && !(req.faceLayer == "back" && !ScaledAway(req)) ==>
      out.image.width == req.image.width && out.image.height == req.image.height
    ensures out.Sent? && req.faceLayer == "back" && !ScaledAway(req) ==>
      out.image.width == req.gifSize.width && out.image.height == req.gifSize.height
    ensures FrameSized(req) && req.faceScaleSize.width > -1.0 && req.faceScaleSize.height > -1.0 ==>
      out.Sent? && out.image.width == req.image.width && out.image.height == req.image.height
  {
    var p := ParseFields(req);
    var scaleWidth, scaleHeight := p.scaleWidth, p.scaleHeight;
    var center, faceCenter, facePos, faceRot := p.center, p.faceCenter, p.facePos, p.faceRot;

    if scaleWidth == 0.0 || scaleHeight == 0.0 {
      return Sent(req.image);
    }
    // The resampler refuses a negative size.
    if scaleWidth < 0.0 || scaleHeight < 0.0 {
      return Failed;
    }

    var face := lib.resize(req.face, scaleWidth.Floor, scaleHeight.Floor);
    assert face == ScaledFace(lib, req);
    face := lib.rotate(face, faceRot);
    assert face == RotatedFace(lib, req);

    // NaN offsets make every comparison in translate false: no shift.
    var dx, dy := 0, 0;
    if faceCenter.Some? {
      var c2fc := SubtractVectors(faceCenter.value, center);
      var rotatedC2fc := lib.rotateVector(c2fc, faceRot);
      var rotCenter := GetCenter(Size(face.width as real, face.height as real));
      var rotatedFC := AddVectors(rotCenter, rotatedC2fc);
      assert rotatedFC == RotatedAnchor(lib, req);
      dx, dy := Trunc(facePos.x - rotatedFC.x), Trunc(facePos.y - rotatedFC.y);
    }
    assert dx == Shift(lib, req).x && dy == Shift(lib, req).y;
    face := Translate(face, dx, dy);

    // resizeCanvas crops to gifSize, and the crop refuses an empty region.
    if req.gifSize.width <= 0 || req.gifSize.height <= 0 {
      return Failed;
    }
    face := ResizeCanvas(face, req.gifSize.width, req.gifSize.height);
    assert face == PlacedFace(lib, req, Shift(lib, req));
    if req.faceLayer == "back" {
      if !(req.image.width <= face.width && req.image.height <= face.height) {
        return Failed;
      }
      face := lib.composite(face, req.image);
    } else {
      if !(face.width <= req.image.width && face.height <= req.image.height) {
        return Failed;
      }
      face := lib.composite(req.image, face);
    }
    out := Sent(face);
  }

  /** Truncation keeps a whole number. */
  lemma TruncWhole(r: real)
    ensures r.Floor as real == r ==> Trunc(r) == r.Floor
  {
    if r.Floor as real == r && r < 0.0 {
      assert -r == (-r.Floor) as real;
    }
  }

  /** Truncating half of a non-negative integer is integer halving, and the
      half loses exactly 0.5 when the integer is odd. */
  lemma {:induction false} HalfTrunc(n: nat)
    ensures Trunc(n as real / 2.0) == n / 2
    ensures n as real / 2.0 == (n / 2) as real + (if n % 2 == 0 then 0.0 else 0.5)
  {
    var q := n / 2;
    assert n == 2 * q + n % 2;
    assert n as real / 2.0 == q as real + (if n % 2 == 0 then 0.0 else 0.5);
    assert (n as real / 2.0).Floor == q;
  }

  /** Truncating k - 1/2 toward zero gives k - 1 for positive k and k
      otherwise. */
  lemma {:induction false} TruncLessHalf(k: int)
    ensures Trunc(k as real - 0.5) == if k > 0 then k - 1 else k
  {
    if k > 0 {
      assert (k as real - 0.5).Floor == k - 1;
    } else {
      assert -(k as real - 0.5) == (-k) as real + 0.5;
      assert ((-k) as real + 0.5).Floor == -k;
    }
  }

  /** At zero rotation the anchor pixel of the scaled face lands on the
      target, or one pixel before it on an axis where the scaled size is odd
      and the target lies ahead of the anchor (the truncated centre and the
      untruncated centre of the rotated raster differ by half a pixel there).
      The rotated face is the scaled face itself. */
  lemma {:induction false} AnchorLandsOnTarget(lib: Primitives, req: Request)
    requires Admissible(lib, req) && Scales(req) && req.faceSize.width != 0.0
    requires req.faceRot == 0.0 && RotationZeroIsIdentity(lib)
    ensures var anchor := ScaledAnchor(req);
            var target := Target(req);
            var size := ScaledSize(req);
            var s := Shift(lib, req);
            && anchor.x + s.x == (if size.width % 2 == 1 && target.x > anchor.x then target.x - 1 else target.x)
            && anchor.y + s.y == (if size.height % 2 == 1 && target.y > anchor.y then target.y - 1 else target.y)
            && target.x - 1 <= anchor.x + s.x <= target.x
            && target.y - 1 <= anchor.y + s.y <= target.y
  {
    var size := ScaledSize(req);
    var anchor := ScaledAnchor(req);
    var target := Target(req);
    var a := RotatedAnchor(lib, req);
    var s := Shift(lib, req);
    assert s == Point(Trunc(target.x as real - a.x), Trunc(target.y as real - a.y));
    AxisLanding(size.width, anchor.x, target.x, a.x, s.x);
    AxisLanding(size.height, anchor.y, target.y, a.y, s.y);
  }

  /** One axis of AnchorLandsOnTarget: with the rotated anchor at
      n/2 + (anchor - n div 2), truncating target - rotatedAnchor lands the
      anchor at the target, or one before it for odd n and target > anchor. */
  lemma {:induction false} AxisLanding(n: nat, anchor: int, target: int, rotated: real, shift: int)
    requires rotated == n as real / 2.0 + (anchor - n / 2) as real
    requires shift == Trunc(target as real - rotated)
    ensures anchor + shift == if n % 2 == 1 && target > anchor then target - 1 else target
  {
    HalfTrunc(n);
    if n % 2 == 0 {
      assert target as real - rotated == (target - anchor) as real;
      assert Trunc((target - anchor) as real) == target - anchor;
    } else {
      assert target as real - rotated == (target - anchor) as real - 0.5;
      TruncLessHalf(target - anchor);
    }
  }

  /** At zero rotation the frame-sized placed face shows, at the landing
      point of AnchorLandsOnTarget, the anchor pixel of the scaled face
      (when that point is on the canvas). */
  lemma AnchorPixelLands(lib: Primitives, req: Request)
    requires Admissible(lib, req) && Scales(req) && req.faceSize.width != 0.0
    requires req.gifSize.width > 0 && req.gifSize.height > 0
    requires req.faceRot == 0.0 && RotationZeroIsIdentity(lib)
    ensures var anchor := ScaledAnchor(req);
            var s := Shift(lib, req);
            var placed := PlacedFace(lib, req, s);
            InCanvas(placed, anchor.x + s.x, anchor.y + s.y) ==>
              At(placed, anchor.x + s.x, anchor.y + s.y) == At(ScaledFace(lib, req), anchor.x, anchor.y)
  {
    AnchorLandsOnTarget(lib, req);
  }
}
