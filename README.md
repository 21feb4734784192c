# Face placement in the GIF editor, modelled in Dafny

The GIF editor lets a user paste a face onto every frame of an animated GIF.
This project models the part of it with real geometry: the server route
`POST /api/editImage`. The route scales the face and rotates it. It then
shifts it so that its anchor point (`faceCenter`) lands on the requested
position (`facePos`). It brings the result to the frame's canvas size and
composites it in front of or behind the frame. The project also models the
two drag editors of the client, which produce `facePos` and `faceCenter`.

Modules:

- `Raster` (`raster.dfy`): RGBA pixels and rasters stored as
  `seq<seq<Pixel>>`. `At(img, x, y)` reads the plane around a raster and is
  transparent outside it. The image library's canvas primitives are defined
  here: a blank canvas (`createPng`), crop (`extract`) and transparent
  padding (`extend`).
- `Canvas` (`canvas.dfy`): the route's `translate` and `resizeCanvas`. Each
  builds the same `extract`/`extend` records as the route does. Both are
  proved pixel by pixel.
- `Vectors` (`vectors.dfy`): `getCenter`, `addVectors`, `subtractVectors`,
  and `objValsToInts`. `objValsToInts` is a method over a mutable record that
  truncates each field in place.
- `EditImage` (`edit_image.dfy`): the route itself, with its parsing prologue,
  the anchor arithmetic, and the placement and layering steps.
- `MouseDrag`, `ImageEditor`, `FaceCenterer` (`mouse_drag.dfy`,
  `image_editor.dfy`, `face_centerer.dfy`): the press/release drag state
  machines of the two client editors. Each is a class holding `screenSize`,
  `screenPos` and `dragStart`. `MouseDrag` holds what both use: `Math.round`,
  the clamp and the inclusive hit test.

Where the code and its comments disagree, the model follows the code:

- The comment above `translate` (api/routes/editImage.js:146-150) says the
  canvas size is kept. The code keeps it only for non-positive shifts. A
  positive shift pads in front and crops nothing, so the canvas grows by the
  shift (`Canvas.Translate`). The route's next step, `resizeCanvas`, brings
  the canvas back to the frame size, so the final picture is not affected
  (`Canvas.PlaceOnCanvas`).
- The layer is not a three-way choice. The value `'back'` puts the frame over
  the face, and every other value puts the face over the frame. There is no
  hidden layer in the route.
- `objValsToInts(JSON.parse(faceRot))` receives a bare number. A `for…in`
  loop over a number visits no keys, so the rotation reaches `rotate` and
  `rotateVector` without truncation.
- The anchor is rescaled by the width ratio on both axes
  (api/routes/editImage.js:30-32).
- A scaled size in (-1, 0) parses to zero, so the route returns the frame. A
  size of -1 or less reaches the resampler, which refuses it.
- A face of zero native width does not stop the route. The ratio is
  infinite or NaN, the rescaled anchor parses to NaN, and so do both offsets.
  Every comparison in `translate` is false with NaN, so the face is placed
  unshifted (`EditImage.Shift`).
- The route does not check `gifSize` against the frame. The image library's
  compositor refuses an overlay larger than its base. So the front layer
  fails when `gifSize` exceeds the frame, and the `'back'` layer fails when
  the frame exceeds `gifSize`. The model answers `Failed` in those cases, and
  when a library call refuses a negative scaled size or a `gifSize` that is
  not positive.

## Model

| member | source | states |
|---|---|---|
| `Raster.Blank` | api/routes/editImage.js:116-125 | a blank canvas has the requested size and every pixel is transparent |
| `Raster.Extract` | api/routes/editImage.js:169 | a crop that fits has the crop's size; its pixel (x, y) is input pixel (left + x, top + y) |
| `Raster.Extend` | api/routes/editImage.js:169 | padding adds left + right columns and top + bottom rows; the input moves by (left, top) and all new area is transparent |
| `Canvas.Translate` | api/routes/editImage.js:151-170 | returns a blank canvas of the input's size when x ≤ −width or y ≤ −height (the crop is empty); otherwise the size is (width + max(x,0)) × (height + max(y,0)); in both cases every output pixel (i, j) is input pixel (i − x, j − y), transparent where that is outside the input |
| `Canvas.ResizeCanvas` | api/routes/editImage.js:173-192 | the result is exactly newWidth × newHeight; the top-left min(w,newW) × min(h,newH) pixels are the input's and every other pixel is transparent |
| `Canvas.PlaceOnCanvas` | api/routes/editImage.js:57-63 | translate then resizeCanvas gives exactly W × H, and pixel (i, j) is input pixel (i − dx, j − dy) or transparent, for every integer shift including the blank-canvas case |
| `Canvas.TranslateZero` | api/routes/editImage.js:151-170 | a shift by (0, 0) returns the input unchanged |
| `Canvas.ResizeCanvasToOwnSize` | api/routes/editImage.js:173-192 | resizing the canvas to its own size returns the input unchanged |
| `Canvas.ResizeCanvasIdempotent` | api/routes/editImage.js:173-192 | resizing the canvas twice to the same size equals resizing once |
| `Canvas.TranslateRoundTrip` | api/routes/editImage.js:151-170 | shifting by (dx, dy) then by (−dx, −dy) grows the canvas by \|dx\| × \|dy\|; it restores every pixel the first shift did not crop and leaves the cropped ones transparent; a shift off the canvas leaves an all-transparent result |
| `Vectors.Trunc` | api/routes/editImage.js:79 | parseInt of a number truncates toward zero: the result is the integer within one unit of r on the side of zero |
| `Vectors.TruncIdempotent` | api/routes/editImage.js:77-81 | truncating an already truncated value changes nothing |
| `Vectors.GetCenter` | api/routes/editImage.js:83-85 | the centre is equally far from both edges on each axis, and is not rounded |
| `Vectors.AddVectors` | api/routes/editImage.js:87-89 | the result is the first vector displaced by the second |
| `Vectors.SubtractVectors` | api/routes/editImage.js:91-93 | adding the subtracted vector back to the result gives the original vector |
| `Vectors.TruncFields` | api/routes/editImage.js:77-81 | same key set; every value is truncated toward zero |
| `Vectors.ObjValsToInts` | api/routes/editImage.js:77-81 | overwrites every field of the object in place with its truncated value, keeps the key set, and returns the same object |
| `Vectors.TruncFieldsIdempotent` | api/routes/editImage.js:77-81 | applying objValsToInts to a record twice gives the same result as once |
| `EditImage.ScaledSize` | api/routes/editImage.js:28 | the parsed scaled size is 0 on an axis exactly when the requested size lies strictly between -1 and 1, and negative exactly when it is -1 or less |
| `EditImage.Center` | api/routes/editImage.js:29 | the truncated centre of a non-negative scaled size is integer halving of the size on each axis |
| `EditImage.ScaledAnchor` | api/routes/editImage.js:30-32 | the anchor, scaled on both axes by the width ratio and truncated, is less than a pixel from the exact scaled anchor, and equal to it when that is whole |
| `EditImage.Target` | api/routes/editImage.js:33 | the parsed target is less than a pixel from the requested position, and equal to it when that is whole |
| `EditImage.ParsePoint` | api/routes/editImage.js:29-33 | objValsToInts on an {x, y} record truncates both components toward zero |
| `EditImage.ParseFields` | api/routes/editImage.js:26-35 | the scaled size, the face's centre, the rescaled anchor and the target are truncated. The anchor is scaled by the width ratio, and is NaN (`None`) when the native width is 0. The rotation passes through |
| `EditImage.ScaledFace` | api/routes/editImage.js:46 | the resampled face has exactly the truncated scaled size |
| `EditImage.RotatedFace` | api/routes/editImage.js:49 | the rotated face is a valid raster; at zero degrees it is the scaled face |
| `EditImage.RotatedAnchor` | api/routes/editImage.js:52-55 | at zero rotation the anchor in the rotated raster sits at half the scaled size plus the anchor's offset from the truncated centre, on each axis |
| `EditImage.Shift` | api/routes/editImage.js:57-60 | the truncated offsets move the rotated anchor to strictly less than one pixel from the target on each axis, at any rotation; for a face of zero native width the offsets are NaN and the face is not moved |
| `EditImage.PlacedFace` | api/routes/editImage.js:57-63 | the face handed to the compositor has gifSize's size. It shows the rotated face shifted by the computed offset, transparent elsewhere |
| `EditImage.EditImage` | api/routes/editImage.js:22-70 | a face scaled to width 0 or height 0 returns the frame unchanged. Otherwise the route fails exactly when a library call refuses: a negative scaled size, a gifSize that is not positive, or an overlay larger than its base. If it does not fail, the output is the placed face composited over the frame, or the frame over the placed face for layer `'back'`. The output is frame-sized, or gifSize-sized for `'back'`. A request whose gifSize is the frame's size and whose scale is above -1 always gets a frame-sized answer |
| `EditImage.AnchorLandsOnTarget` | api/routes/editImage.js:29-60 | at zero rotation, for a face of nonzero native width, the anchor lands on the target. On an axis of odd scaled size with the target ahead of the anchor it lands one pixel before the target (the centre is truncated at line 29, but not at line 54). In every case it is within [target - 1, target] |
| `EditImage.AnchorPixelLands` | api/routes/editImage.js:52-63 | at zero rotation the gifSize-sized placed face shows the anchor pixel of the scaled face at that landing point, when the landing point is on the canvas |
| `MouseDrag.Round` | client/src/Components/ImageEditor.jsx:48 | Math.round gives the nearest integer, with halves rounded up |
| `MouseDrag.InRect` | client/src/Components/ImageEditor.jsx:64-71 | the hit test holds exactly when the point's offset from the rectangle's corner lies in [0, width] × [0, height], edges included |
| `ImageEditor.ClampToBand` | client/src/Components/ImageEditor.jsx:51-57 | each coordinate ends at most one face size past the far edge of the frame. With non-negative sizes the four steps are a clamp to [−face size, frame size + face size]: a coordinate already in that band is unchanged |
| `ImageEditor.ImageEditor.constructor` | client/src/Components/ImageEditor.jsx:14-21 | no screen measurement and no drag in progress |
| `ImageEditor.ImageEditor.OnLoad` | client/src/Components/ImageEditor.jsx:97-106 | records the measured screen size and position and keeps the drag state |
| `ImageEditor.ImageEditor.IsInBounds` | client/src/Components/ImageEditor.jsx:64-71 | screenPos.x ≤ x ≤ screenPos.x + width and screenPos.y ≤ y ≤ screenPos.y + height, edges included |
| `ImageEditor.ImageEditor.HandleMouseDown` | client/src/Components/ImageEditor.jsx:33-37 | dragStart becomes the pointer when it is over the frame; otherwise the state is unchanged |
| `ImageEditor.ImageEditor.HandleMouseUp` | client/src/Components/ImageEditor.jsx:39-62 | dragStart is always cleared. A position is reported exactly when a drag was in progress and the release is in bounds. It is never more than one face size past the far edge; with non-negative sizes it is the rounded `pos + diff`, clamped to the band around the frame |
| `FaceCenterer.ClampToFace` | client/src/Components/FaceCenterer.jsx:51-57 | each coordinate ends at most at the far edge of the face. With a non-negative size the four steps are a clamp to [0, face size]: a coordinate already inside is unchanged |
| `FaceCenterer.FaceCenterer.constructor` | client/src/Components/FaceCenterer.jsx:11-19 | no screen measurement and no drag in progress |
| `FaceCenterer.FaceCenterer.GetScreenSizePos` | client/src/Components/FaceCenterer.jsx:89-99 | records the measured screen size and position and keeps the drag state |
| `FaceCenterer.FaceCenterer.IsInBounds` | client/src/Components/FaceCenterer.jsx:64-71 | the same inclusive rectangle test against screenPos and screenSize |
| `FaceCenterer.FaceCenterer.HandleMouseDown` | client/src/Components/FaceCenterer.jsx:33-37 | dragStart becomes the pointer when it is over the face; otherwise the state is unchanged |
| `FaceCenterer.FaceCenterer.HandleMouseUp` | client/src/Components/FaceCenterer.jsx:39-62 | dragStart is always cleared. The anchor is reported exactly when a drag was in progress and the release is in bounds. It never passes the far edge; with a non-negative size it is the rounded `pos + diff`, clamped to [0, width] × [0, height] |

## Left out

- Resampling, raster rotation and alpha compositing (`resize`, `rotate`, `.composite`) are floating-point pixel arithmetic in the image library. They are function-valued parameters (`EditImage.Primitives`). The model assumes only that resampling returns a raster of the requested size and that rotation returns a raster. Rotation by zero degrees is taken to return its input only where a lemma says so.
- `rotateVector` (api/routes/editImage.js:95-103) is trigonometry with 4-decimal rounding. It is a parameter too. The zero-angle lemmas assume it returns integer vectors unchanged.
- `getSize` and image metadata: a raster carries its width and height.
- Numbers are exact reals, not IEEE doubles. `parseInt` is modelled as truncation toward zero, which differs from JavaScript for exponent notation such as `1e21` or `1e-7`.
- EditImage.EditImage: when a library call rejects, the model answers `Failed`. The rejected promise of the async handler, and what the web framework then sends, are not modelled. Numbers that are not numbers at all (a `gifSize` that is fractional, or a JSON field that is not numeric) are outside the model. `Dims` holds integers, and `Size` and `Vec` hold reals.
- Canvas.ResizeCanvas: a target size that is not positive is excluded by its requires. The route model answers `Failed` before the call, because the library's crop rejects such a size.
- ImageEditor.ClampToBand, ImageEditor.ImageEditor.HandleMouseUp: with a negative frame or face size the exact result of the four steps is not stated, only the upper bound. Those sizes come from image dimensions and a slider starting at 0.
- FaceCenterer.ClampToFace, FaceCenterer.FaceCenterer.HandleMouseUp: with a negative face size only the upper bound is stated. The size comes from image dimensions.
- HTTP and multipart parsing, JSON and base64 decoding, and the response encoding (api/routes/editImage.js:9-37, 69) are left out. The route starts from already-decoded rasters and numbers.
- The route assigns `rotatedc2fc` (api/routes/editImage.js:53) to an implicit global and reads it after an `await`. Concurrent requests could therefore see each other's value. The model runs one request at a time.
- Client: converting screen distances to image distances (`sizeScreenToActual`) uses floating-point division of DOM measurements. It is the `toActual` parameter. Rendering, sliders, `PositionInput`, event listener registration and React's batching of `setState` are left out.
- ImageEditor.ImageEditor.HandleMouseDown and FaceCenterer.FaceCenterer.HandleMouseDown: before the image is measured, the JavaScript hit test throws on a null `screenPos`. The model keeps the state unchanged in that case instead of raising an exception.
- GIF encoding (api/routes/imagesToGif.js), the greyscale test route (api/routes/testAPI.js), uploads and modals (App.js, UploadButton.jsx, InfoModal.jsx, DebugModal.jsx) and the static sample lists (Constants.js) are not part of this model.
