/**
 * `applySuperResolution` over dimensions and outcomes. The pixel kernels
 * (colour conversion, interpolating resize, normalisation) are left abstract;
 * what is kept is the orientation step, the shape of every intermediate,
 * the network's input blob, and the checks that turn a bad network output
 * into an empty Mat. The parameter `forward` stands for the network's answer,
 * `Net.forward()`, on this frame's blob: the blob's pixel values are
 * abstracted away, so `forward` sees only its shape and may differ from one
 * frame to the next (whether the answer holds a NaN depends on the pixels).
 */
module SuperResolution {
  import opened Raster

  /** The network's fixed input plane, and the output it is expected to double it to. */
  const LumaInput := Size(320, 240)
  const EnhancedSize := Size(2 * LumaInput.width, 2 * LumaInput.height)

  /** A 4-d blob shape, NCHW, as `Mat.size(0..3)`. */
  datatype Blob = Blob(n: nat, c: nat, h: nat, w: nat) {
    function Total(): nat { n * c * h * w }
  }

  /** What `forward()` yields: its shape, and whether `Core.minMaxLoc` saw a NaN. */
  datatype NetOutput = NetOutput(shape: Blob, hasNaN: bool)

  /** Why the source returns an empty `Mat()`. */
  datatype Failure =
    | EmptyInput             // `frame.empty()` on entry
    | NaNOutput              // min or max of the output is NaN
    | ReshapeFailed          // the 4-d reshape of the quantised plane throws; caught, empty Mat
    | UnexpectedOutputShape  // output is not 480 rows by 640 columns
    | EmptyOutput            // the merged RGBA result is empty

  datatype Outcome<P> =
    | Enhanced(size: Size, upright: Image<P>)  // the RGBA result, and the oriented frame it was built from
    | Failed(reason: Failure)
  {
    /** `Mat.empty()` of the returned Mat; a failure returns `Mat()`. */
    predicate IsEmpty() {
      Failed? || size.width == 0 || size.height == 0
    }
  }

  /** `Dnn.blobFromImage` of a single-channel plane: shape [1, 1, rows, cols]. */
  function BlobFromImage(plane: Size): Blob {
    Blob(1, 1, plane.height, plane.width)
  }

  /** The only blob the network is ever given: [1, 1, 240, 320]. */
  const ModelInput := BlobFromImage(LumaInput)

  /** The output the pipeline accepts, stated independently of its step-by-step checks. */
  predicate WellFormedOutput(o: NetOutput) {
    !o.hasNaN && o.shape == Blob(1, 1, EnhancedSize.height, EnhancedSize.width)
  }

  function ApplySuperResolution<P>(frame: Image<P>, forward: Blob -> NetOutput): (r: Outcome<P>)
    requires frame.Valid()
    ensures frame.IsEmpty() ==> r == Failed(EmptyInput)
    ensures forward(ModelInput).hasNaN ==> r.IsEmpty()
    ensures !r.IsEmpty() <==> !frame.IsEmpty() && WellFormedOutput(forward(ModelInput))
    ensures r.Enhanced? ==> r.size == EnhancedSize && r.upright == Orient(frame)
    ensures r.Enhanced? ==> r.upright.height >= r.upright.width
  {
    if frame.IsEmpty() then Failed(EmptyInput)
    else
      var upright := Orient(frame);
      // the Y plane of the upright frame is resized to 320×240 for the network
      var resizedY := LumaInput;
      var output := forward(BlobFromImage(resizedY));
      var shape := output.shape;
      if output.hasNaN then Failed(NaNOutput)
      // the quantised 2-d plane has `size(2)` rows and is reshaped to [1, 1, size(2), size(3)]
      else if shape.Total() != shape.h * shape.w then Failed(ReshapeFailed)
      else if shape.w != 640 || shape.h != 480 then Failed(UnexpectedOutputShape)
      else
        // U and V are resized to 640×480 and merged with the enhanced Y plane;
        // the merged result is never empty, so the `rgbOutput.empty()` check cannot fail here
        var rgba := Size(640, 480);
        if rgba.width == 0 || rgba.height == 0 then Failed(EmptyOutput)
        else Enhanced(rgba, upright)
  }

  /** The blob handed to the network is [1, 1, 240, 320], whatever the frame. */
  lemma ModelInputShape()
    ensures ModelInput == Blob(1, 1, 240, 320)
  {
  }

  /**
   * The network is consulted on that one blob only: two networks that agree
   * on [1, 1, 240, 320] give every frame the same outcome.
   */
  lemma OnlyModelInputMatters<P>(frame: Image<P>, f: Blob -> NetOutput, g: Blob -> NetOutput)
    requires frame.Valid() && f(Blob(1, 1, 240, 320)) == g(Blob(1, 1, 240, 320))
    ensures ApplySuperResolution(frame, f) == ApplySuperResolution(frame, g)
  {
  }

  /** Running the pipeline on its own upright frame gives the same outcome: no second turn. */
  lemma UprightInputUnchanged<P>(frame: Image<P>, forward: Blob -> NetOutput)
    requires frame.Valid()
    ensures ApplySuperResolution(Orient(frame), forward) == ApplySuperResolution(frame, forward)
  {
  }

  /** A network that keeps its contract always yields the 640×480 result. */
  lemma WellFormedNetworkEnhances<P>(frame: Image<P>, forward: Blob -> NetOutput)
    requires frame.Valid() && !frame.IsEmpty()
    requires forward(ModelInput) == NetOutput(Blob(1, 1, 480, 640), false)
    ensures ApplySuperResolution(frame, forward) == Enhanced(Size(640, 480), Orient(frame))
  {
  }
}
