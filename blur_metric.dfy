/**
 * `calculateBlurScore`: the variance of the Laplacian of the grey frame.
 * The Laplacian and `Core.meanStdDev` are OpenCV kernels; their result, the
 * standard deviation of the Laplacian response, is the parameter `laplacianStdDev`.
 */
module BlurMetric {
  import opened Raster

  function CalculateBlurScore<P>(frame: Image<P>, laplacianStdDev: real): (score: real)
    ensures score >= 0.0
    ensures frame.IsEmpty() ==> score == 0.0
    ensures !frame.IsEmpty() ==> score == laplacianStdDev * laplacianStdDev
  {
    if frame.IsEmpty() then 0.0
    else
      var variance := laplacianStdDev * laplacianStdDev;
      variance
  }
}
