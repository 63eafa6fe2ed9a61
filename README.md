# Super-resolution camera app: frame gate, pipeline shapes and NV21 packing

This project models the decision and buffer logic of the Android app's
`MainActivity.kt`: a camera analyzer that counts delivered frames, takes every
fifth one, scores its blur and, when the score is below 1000, runs an FSRCNN
super-resolution pipeline (`applySuperResolution`) and shows its result turned
a quarter. It also models the NV21 packing of `ImageProxy.toBitmap`.

Modules, one per component:

- `Raster`: row-major images, the clockwise and counter-clockwise quarter turns
  (`out[i][j] == in[H-1-j][i]` and `out[i][j] == in[j][W-1-i]`), and the
  orientation step that turns a landscape frame upright.
- `BlurMetric`: `calculateBlurScore`. The Laplacian and its standard deviation
  are OpenCV kernels and enter as a number; the model keeps the empty-frame
  guard and the squaring into a variance.
- `SuperResolution`: `applySuperResolution` over shapes. The parameter
  `forward` stands for the network's answer on this frame's blob: it maps the
  blob's shape to an output shape plus a "contains NaN" flag. The blob's pixel
  values are abstracted away, so `forward` may differ from one frame to the next. The source returns an empty `Mat()` on every
  failure; the model tags each failure with its reason (empty input, NaN output,
  failed 4-d reshape, unexpected output shape, empty result).
- `FrameAnalyzer`: the analyzer lambda as a class `Analyzer` whose fields are
  the captured `frameCount` and the Compose states it writes. `frameCount` is a
  Kotlin `Int`, so the model wraps it at 32 bits and evaluates Kotlin's
  truncating `%`. The lemma `SamplingGapAtWrap` shows that across the wrap the
  gap between two sampled frames is six deliveries, not five.
- `Nv21`: `java.nio.ByteBuffer` as a class with a position, its bulk `get`, and
  the packing of the Y, V and U planes into one array.

How the code behaves, in the points the model depends on:

- The analyzer writes mutable display state rather than returning a tagged
  result; the model follows the code (class `Analyzer`), and keeps a tagged
  outcome only inside the pipeline.
- The reshape of the quantised plane to `[1, 1, size(2), size(3)]` at line 237
  throws unless the output holds exactly `size(2) × size(3)` values. The
  exception is caught and an empty Mat is returned. So a well-formed output is
  exactly `[1, 1, 480, 640]` without NaN (`WellFormedOutput`).
- The frame counter is a wrapping 32-bit `Int` captured by the closure.
- The final `rgbOutput.empty()` check at line 281 cannot fail on a merged
  640×480 result, so the `EmptyOutput` failure is unreachable in the model.

## Model

| member | source | states |
|---|---|---|
| `Raster.RotateClockwise` | app/src/main/java/com/example/superresolutionapp/MainActivity.kt:176-177 | the clockwise quarter turn of a well-formed image is well formed, with width and height swapped |
| `Raster.RotateCounterClockwise` | app/src/main/java/com/example/superresolutionapp/MainActivity.kt:373-374 | the counter-clockwise quarter turn is well formed, with width and height swapped |
| `Raster.QuarterTurnsInverse` | app/src/main/java/com/example/superresolutionapp/MainActivity.kt:176-177 | the two quarter turns undo each other in either order, so a turn loses no pixel |
| `Raster.RotateClockwiseMovesPixel` | app/src/main/java/com/example/superresolutionapp/MainActivity.kt:177 | pixel (r, c) of the input is pixel (c, H-1-r) of the clockwise turn |
| `Raster.Orient` | app/src/main/java/com/example/superresolutionapp/MainActivity.kt:175-180 | a frame wider than tall is turned clockwise to (h, w), any other frame keeps its dims; the result always has height >= width, and it is empty exactly when the input is |
| `Raster.OrientFixesExactlyUpright` | app/src/main/java/com/example/superresolutionapp/MainActivity.kt:176-180 | the orientation step leaves a frame unchanged if and only if its height is at least its width |
| `Raster.OrientIdempotent` | app/src/main/java/com/example/superresolutionapp/MainActivity.kt:176-180 | applying the orientation step twice is the same as once |
| `BlurMetric.CalculateBlurScore` | app/src/main/java/com/example/superresolutionapp/MainActivity.kt:139-158 | an empty frame scores 0.0; otherwise the score is the squared Laplacian standard deviation; the score is never negative |
| `SuperResolution.ModelInputShape` | app/src/main/java/com/example/superresolutionapp/MainActivity.kt:201-202 | the blob handed to the network is [1, 1, 240, 320] |
| `SuperResolution.OnlyModelInputMatters` | app/src/main/java/com/example/superresolutionapp/MainActivity.kt:194-208 | the network is only ever given [1, 1, 240, 320]: networks that give the same answer on this frame's blob give it the same outcome |
| `SuperResolution.ApplySuperResolution` | app/src/main/java/com/example/superresolutionapp/MainActivity.kt:165-291 | an empty input gives an empty result; a NaN output gives an empty result; the result is non-empty if and only if the input is non-empty and the network's answer to [1, 1, 240, 320] is [1, 1, 480, 640] without NaN; a success is twice 320×240, i.e. 640×480, built from the upright frame |
| `SuperResolution.UprightInputUnchanged` | app/src/main/java/com/example/superresolutionapp/MainActivity.kt:176-180 | running the pipeline on the already oriented frame gives the same outcome as on the original: no second rotation |
| `SuperResolution.WellFormedNetworkEnhances` | app/src/main/java/com/example/superresolutionapp/MainActivity.kt:241-287 | for any non-empty frame, a network answering [1, 1, 480, 640] without NaN yields the 640×480 result from the oriented frame |
| `FrameAnalyzer.Increment` | app/src/main/java/com/example/superresolutionapp/MainActivity.kt:341 | `frameCount++` stays a 32-bit value and is the old value plus one modulo 2^32 |
| `FrameAnalyzer.Rem` | app/src/main/java/com/example/superresolutionapp/MainActivity.kt:342 | Kotlin's `%`: the remainder of truncated division, smaller than the divisor in magnitude and with the dividend's sign |
| `FrameAnalyzer.Advance` | app/src/main/java/com/example/superresolutionapp/MainActivity.kt:338-341 | the count after k deliveries is still a 32-bit value |
| `FrameAnalyzer.AdvanceCounts` | app/src/main/java/com/example/superresolutionapp/MainActivity.kt:338-341 | away from the wrap, k deliveries raise the count by exactly k |
| `FrameAnalyzer.SampledEveryFifthFrame` | app/src/main/java/com/example/superresolutionapp/MainActivity.kt:341-342 | away from the 32-bit wrap (c + 5 <= IntMax), after a sampled frame c the next four are skipped and the fifth is sampled |
| `FrameAnalyzer.SamplingGapAtWrap` | app/src/main/java/com/example/superresolutionapp/MainActivity.kt:341-342 | across the 32-bit wrap, count 2147483645 is sampled, the next five deliveries are skipped and the sixth is sampled |
| `FrameAnalyzer.ObservedBlurScore` | app/src/main/java/com/example/superresolutionapp/MainActivity.kt:348 | the analyzer's score is never negative, and is 0.0 for an empty frame or a missing activity |
| `FrameAnalyzer.DegenerateFrameBelowThreshold` | app/src/main/java/com/example/superresolutionapp/MainActivity.kt:348-352 | an empty frame or a missing activity always scores below the 1000 threshold |
| `FrameAnalyzer.DisplayRotation` | app/src/main/java/com/example/superresolutionapp/MainActivity.kt:370-385 | the shown bitmap (+90° in portrait, -90° in landscape) has the result's width and height swapped |
| `FrameAnalyzer.DisplayRotationReversible` | app/src/main/java/com/example/superresolutionapp/MainActivity.kt:370-385 | turning the shown bitmap back by the opposite quarter turn recovers the result exactly |
| `FrameAnalyzer.Analyzer.constructor` | app/src/main/java/com/example/superresolutionapp/MainActivity.kt:123-125 | the counter starts at 0 (line 338), the score is "N/A", no bitmap is present (also the two states of lines 307-308) and the flag is down |
| `FrameAnalyzer.Analyzer.ClearEnhancement` | app/src/main/java/com/example/superresolutionapp/MainActivity.kt:357-359 | the flag goes down and both bitmaps become null together; nothing else changes |
| `FrameAnalyzer.Analyzer.OnFrame` | app/src/main/java/com/example/superresolutionapp/MainActivity.kt:339-405 | the counter advances by one (32-bit); an unsampled frame changes nothing else; a sampled frame records the frame and its score, invokes enhancement exactly when the activity exists and the score is below 1000, and raises the flag exactly when enhancement returned a non-empty Mat; whenever the flag is down both bitmaps are null, whenever it is up the result bitmap is 640×480 and the shown one is 480×640; a sampled empty frame invokes enhancement exactly when the activity exists and always leaves the flag down |
| `Nv21.Planes` | app/src/main/java/com/example/superresolutionapp/MainActivity.kt:639-645 | cutting an NV21 array at the Y and V sizes gives three planes whose sizes add up to the array's |
| `Nv21.LayoutPlanes` | app/src/main/java/com/example/superresolutionapp/MainActivity.kt:639-643 | the NV21 array has length ySize+uSize+vSize, bytes [0, ySize) are Y, [ySize, ySize+vSize) are V and the rest are U; cutting it again recovers exactly Y, U and V |
| `Nv21.PlanesLayout` | app/src/main/java/com/example/superresolutionapp/MainActivity.kt:639-643 | laying out the planes cut from an NV21 array gives the array back |
| `Nv21.ByteBuffer.constructor` | app/src/main/java/com/example/superresolutionapp/MainActivity.kt:631-633 | a plane buffer starts at position 0 with all its bytes remaining |
| `Nv21.ByteBuffer.Remaining` | app/src/main/java/com/example/superresolutionapp/MainActivity.kt:635-637 | `remaining()` is the number of bytes from the position to the limit |
| `Nv21.ByteBuffer.Get` | app/src/main/java/com/example/superresolutionapp/MainActivity.kt:641-643 | bulk `get` copies the next `length` bytes to `dst[offset..offset+length]`, leaves the rest of `dst` untouched and advances the position by `length` |
| `Nv21.PackNv21` | app/src/main/java/com/example/superresolutionapp/MainActivity.kt:631-643 | the new array has length ySize+uSize+vSize and holds exactly Y, then V, then U; every plane buffer is consumed; no buffer's bytes change |

## Left out

- CameraX setup, the preview, lens selection, lifecycle binding, the single-thread executor and the keep-only-latest backpressure: platform I/O and threading.
- Compose layout, the `Text` and `Image` composables and the Toasts. The landscape copy of the analyzer (lines 495-562) is identical to the portrait one; `Analyzer` models both, with the captured `isPortrait` as a constant.
- Permission handling, OpenCV initialisation and loading the ONNX model: resource I/O and foreign calls.
- The values computed by OpenCV kernels: the Laplacian and its variance, the 1/255 scaling, `blobFromImage`'s numbers, min-max normalisation and quantisation, interpolating resize, RGB/YUV conversion and the network's numbers. Only shapes and the NaN flag are kept.
- `ApplySuperResolution`: the network output is taken to be 4-dimensional. The source does not check `dims()`; for a lower-rank output `size(2)` and `size(3)` read past the shape, which is not modelled.
- `ApplySuperResolution`: the failure reasons of outputs with a zero dimension follow the check order of the source; OpenCV may raise earlier on them, which gives the same empty Mat.
- `ApplySuperResolution`: frames are taken to be the 8-bit RGBA Mats the analyzer passes (from `Utils.bitmapToMat`); the exception that `cvtColor` at lines 184-185 throws on another channel count or depth, and the empty Mat the catch then returns, are not modelled.
- `BlurMetric.CalculateBlurScore`: does not model the exception path of `cvtColor` on a frame that is not RGBA, which also returns 0.0.
- `FrameAnalyzer.Analyzer.OnFrame`: does not model exceptions thrown while a frame is handled (for example by `toBitmap`), which the lambda catches after some fields may already be written.
- `FrameAnalyzer.Analyzer.OnFrame`: the bitmaps are kept as their sizes, because their pixels come from OpenCV kernels; the quarter turn on pixels is modelled by `FrameAnalyzer.DisplayRotation`.
- The blur text is kept as the score itself; the `"%.2f"` formatting is left out.
- JPEG compression and decoding in `toBitmap`, bitmap/Mat conversion and `release()`: foreign calls and resource lifetime.
- `Nv21.PackNv21`: the three plane buffers are taken as separate byte sequences; on devices whose U and V planes share memory the model does not capture that overlap. A Kotlin `Int` overflow of `ySize + uSize + vSize` is not modelled.
