/**
 * The camera analyzer of `CameraPreview`: a captured 32-bit frame counter,
 * a per-frame sampling gate, the blur-score threshold, and the display state
 * (`blurScoreState`, `originalBitmap`, `isSuperResolutionActive`,
 * `superResolvedBitmap`, `rotatedSuperResolvedBitmap`) it writes.
 */
module FrameAnalyzer {
  import opened Options
  import opened Raster
  import opened BlurMetric
  import opened SuperResolution

  /** Kotlin `Int`. */
  const IntMin: int := -0x8000_0000
  const IntMax: int := 0x7fff_ffff

  predicate IsInt(x: int) {
    IntMin <= x <= IntMax
  }

  /** `frameCount++` on a Kotlin `Int`: two's complement, so it wraps from the maximum to the minimum. */
  function Increment(c: int): (r: int)
    requires IsInt(c)
    ensures IsInt(r) && (r - (c + 1)) % 0x1_0000_0000 == 0
  {
    if c == IntMax then IntMin else c + 1
  }

  /** Kotlin's `/` on `Int`: division truncated toward zero. */
  function Quot(a: int, b: int): int
    requires b > 0
  {
    if a >= 0 then a / b else -((-a) / b)
  }

  /** Kotlin's `%`: what truncated division leaves, carrying the dividend's sign. */
  function Rem(a: int, b: int): (r: int)
    requires b > 0
    ensures a == Quot(a, b) * b + r
    ensures -b < r < b
    ensures a >= 0 ==> r >= 0
    ensures a <= 0 ==> r <= 0
  {
    if a >= 0 then a % b else -((-a) % b)
  }

  const SamplingInterval: int := 5
  const BlurThreshold: real := 1000.0

  /** The gate `frameCount % 5 == 0`, evaluated on the already incremented count. */
  predicate Sampled(count: int) {
    Rem(count, SamplingInterval) == 0
  }

  /** The count after `k` more delivered frames. */
  function Advance(c: int, k: nat): (r: int)
    requires IsInt(c)
    ensures IsInt(r)
    decreases k
  {
    if k == 0 then c else Advance(Increment(c), k - 1)
  }

  /** Away from the wrap the counter just counts. */
  lemma {:induction false} AdvanceCounts(c: int, k: nat)
    requires IsInt(c) && c + k <= IntMax
    ensures Advance(c, k) == c + k
    decreases k
  {
    if k > 0 {
      AdvanceCounts(Increment(c), k - 1);
    }
  }

  /** After a sampled frame the next four are skipped and the fifth is sampled again. */
  lemma SampledEveryFifthFrame(c: int)
    requires IsInt(c) && Sampled(c) && c + SamplingInterval <= IntMax
    ensures forall k | 1 <= k < SamplingInterval :: !Sampled(Advance(c, k))
    ensures Sampled(Advance(c, SamplingInterval))
  {
    forall k | 1 <= k < SamplingInterval ensures !Sampled(Advance(c, k)) {
      AdvanceCounts(c, k);
    }
    AdvanceCounts(c, SamplingInterval);
  }

  /**
   * Across the 32-bit wrap the interval stretches to six frames: the last
   * sampled positive count is 2147483645, and the next is -2147483645.
   */
  lemma SamplingGapAtWrap()
    ensures Sampled(2147483645) && Sampled(Advance(2147483645, 6))
    ensures forall k | 1 <= k < 6 :: !Sampled(Advance(2147483645, k))
  {
  }

  /** `mainActivity?.calculateBlurScore(mat) ?: 0.0`. */
  function ObservedBlurScore<P>(frame: Image<P>, laplacianStdDev: real, hasActivity: bool): (score: real)
    ensures score >= 0.0
    ensures frame.IsEmpty() || !hasActivity ==> score == 0.0
  {
    if hasActivity then CalculateBlurScore(frame, laplacianStdDev) else 0.0
  }

  /**
   * An empty frame, or a missing activity, scores 0, below the threshold. With an
   * activity that means enhancement is attempted; without one the null result
   * clears the display state instead.
   */
  lemma DegenerateFrameBelowThreshold<P>(frame: Image<P>, laplacianStdDev: real, hasActivity: bool)
    requires frame.IsEmpty() || !hasActivity
    ensures ObservedBlurScore(frame, laplacianStdDev, hasActivity) < BlurThreshold
  {
  }

  /** `Matrix.postRotate(90f)` in portrait, `postRotate(-90f)` in landscape. */
  function DisplayRotation<P>(bitmap: Image<P>, isPortrait: bool): (r: Image<P>)
    requires bitmap.Valid()
    ensures r.Valid() && r.Dims() == bitmap.Dims().Swapped()
  {
    if isPortrait then RotateClockwise(bitmap) else RotateCounterClockwise(bitmap)
  }

  /** The shown bitmap keeps every pixel of the result: turning it back recovers it. */
  lemma DisplayRotationReversible<P>(bitmap: Image<P>, isPortrait: bool)
    requires bitmap.Valid()
    ensures (if isPortrait then RotateCounterClockwise(DisplayRotation(bitmap, isPortrait))
             else RotateClockwise(DisplayRotation(bitmap, isPortrait))) == bitmap
  {
    QuarterTurnsInverse(bitmap);
  }

  class Analyzer<P> {
    /**
     * The orientation the analyzer lambda captured when the view was created.
     * It picks the direction of the display turn only; both turns give the same
     * sizes, so no size stated here depends on it.
     */
    const isPortrait: bool
    var frameCount: int
    /** `blurScoreState`: `None` is the initial "Blur Score: N/A". */
    var blurScore: Option<real>
    var originalBitmap: Option<Image<P>>
    var isSuperResolutionActive: bool
    /** Bitmaps are kept as their dimensions; their pixels come from OpenCV kernels. */
    var superResolvedBitmap: Option<Size>
    var rotatedSuperResolvedBitmap: Option<Size>

    /**
     * The display invariant: the flag is up exactly when both bitmaps are
     * present, the result is always 640×480, and the shown one is its quarter turn.
     */
    ghost predicate Valid()
      reads this
    {
      IsInt(frameCount) &&
      (isSuperResolutionActive <==> superResolvedBitmap.Some? && rotatedSuperResolvedBitmap.Some?) &&
      (superResolvedBitmap.Some? <==> rotatedSuperResolvedBitmap.Some?) &&
      (superResolvedBitmap.Some? ==>
        superResolvedBitmap.value == EnhancedSize &&
        rotatedSuperResolvedBitmap.value == EnhancedSize.Swapped())
    }

    constructor (isPortrait: bool)
      ensures Valid() && this.isPortrait == isPortrait
      ensures frameCount == 0 && blurScore == None && originalBitmap == None
      ensures !isSuperResolutionActive && superResolvedBitmap == None && rotatedSuperResolvedBitmap == None
    {
      this.isPortrait := isPortrait;
      frameCount := 0;
      blurScore := None;
      originalBitmap := None;
      isSuperResolutionActive := false;
      superResolvedBitmap := None;
      rotatedSuperResolvedBitmap := None;
    }

    /** Clears the three pieces of super-resolution display state together. */
    method ClearEnhancement()
      requires IsInt(frameCount)
      modifies this
      ensures Valid() && !isSuperResolutionActive
      ensures superResolvedBitmap == None && rotatedSuperResolvedBitmap == None
      ensures frameCount == old(frameCount)
      ensures blurScore == old(blurScore) && originalBitmap == old(originalBitmap)
    {
      isSuperResolutionActive := false;
      superResolvedBitmap := None;
      rotatedSuperResolvedBitmap := None;
    }

    /**
     * One delivered frame. `frame` is `imageProxy.toBitmap()`, `laplacianStdDev`
     * what OpenCV's kernels make of it, `forward` the network, and `hasActivity`
     * whether the view's context is the `MainActivity`.
     */
    method OnFrame(frame: Image<P>, laplacianStdDev: real, forward: Blob -> NetOutput, hasActivity: bool)
      returns (ghost enhancementInvoked: bool)
      requires Valid() && frame.Valid()
      modifies this
      ensures Valid()
      ensures frameCount == Increment(old(frameCount))
      // a frame that is not sampled changes nothing else
      ensures !Sampled(frameCount) ==>
        !enhancementInvoked &&
        blurScore == old(blurScore) && originalBitmap == old(originalBitmap) &&
        isSuperResolutionActive == old(isSuperResolutionActive) &&
        superResolvedBitmap == old(superResolvedBitmap) &&
        rotatedSuperResolvedBitmap == old(rotatedSuperResolvedBitmap)
      ensures Sampled(frameCount) ==>
        var score := ObservedBlurScore(frame, laplacianStdDev, hasActivity);
        originalBitmap == Some(frame) && blurScore == Some(score) &&
        (enhancementInvoked <==> hasActivity && score < BlurThreshold) &&
        (isSuperResolutionActive <==>
          enhancementInvoked && !ApplySuperResolution(frame, forward).IsEmpty())
      // a sampled empty frame is enhanced exactly when the activity exists, and never raises the flag
      ensures Sampled(frameCount) && frame.IsEmpty() ==>
        (enhancementInvoked <==> hasActivity) && !isSuperResolutionActive
      ensures !isSuperResolutionActive ==> superResolvedBitmap == None && rotatedSuperResolvedBitmap == None
      ensures Sampled(frameCount) && isSuperResolutionActive ==>
        var result := ApplySuperResolution(frame, forward);
        superResolvedBitmap == Some(result.size) &&
        rotatedSuperResolvedBitmap == Some(result.size.Swapped())
    {
      enhancementInvoked := false;
      frameCount := Increment(frameCount);
      if Sampled(frameCount) {
        originalBitmap := Some(frame);
        var score := ObservedBlurScore(frame, laplacianStdDev, hasActivity);
        blurScore := Some(score);
        if score < BlurThreshold {
          if hasActivity {
            enhancementInvoked := true;
            var result := ApplySuperResolution(frame, forward);
            if result.IsEmpty() {
              ClearEnhancement();
            } else {
              var bitmap := result.size;
              superResolvedBitmap := Some(bitmap);
              rotatedSuperResolvedBitmap := Some(bitmap.Swapped());
              isSuperResolutionActive := true;
            }
          } else {
            // `superResolvedMat` is null: the `?: run { … }` branch
            ClearEnhancement();
          }
        } else {
          ClearEnhancement();
        }
      }
    }
  }
}
