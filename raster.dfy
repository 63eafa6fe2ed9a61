/**
 * Row-major rasters and the quarter turns applied to them: OpenCV's
 * `Core.rotate(…, ROTATE_90_CLOCKWISE)` in `applySuperResolution`, and the
 * `Matrix.postRotate(±90)` display rotation of the analyzer.
 */
module Raster {

  /** Width × height, in that order, as `Mat.cols()` × `Mat.rows()`. */
  datatype Size = Size(width: nat, height: nat) {
    function Swapped(): Size {
      Size(height, width)
    }
  }

  /** `rows[r][c]` is the pixel in row `r` (from the top) and column `c` (from the left). */
  datatype Image<P> = Image(width: nat, height: nat, rows: seq<seq<P>>) {

    /** The rows agree with the declared dimensions. */
    ghost predicate Valid() {
      |rows| == height && forall r | 0 <= r < |rows| :: |rows[r]| == width
    }

    /** OpenCV's `Mat.empty()`: the matrix holds no pixel at all. */
    predicate IsEmpty() {
      width == 0 || height == 0
    }

    function Dims(): Size {
      Size(width, height)
    }
  }

  /** A quarter turn clockwise: `out[i][j] == in[H-1-j][i]`. */
  function RotateClockwise<P>(g: Image<P>): (r: Image<P>)
    requires g.Valid()
    ensures r.Valid() && r.Dims() == g.Dims().Swapped()
  {
    Image(g.height, g.width,
      seq(g.width, i requires 0 <= i < g.width =>
        seq(g.height, j requires 0 <= j < g.height => g.rows[g.height - 1 - j][i])))
  }

  /** A quarter turn counter-clockwise: `out[i][j] == in[j][W-1-i]`. */
  function RotateCounterClockwise<P>(g: Image<P>): (r: Image<P>)
    requires g.Valid()
    ensures r.Valid() && r.Dims() == g.Dims().Swapped()
  {
    Image(g.height, g.width,
      seq(g.width, i requires 0 <= i < g.width =>
        seq(g.height, j requires 0 <= j < g.height => g.rows[j][g.width - 1 - i])))
  }

  /** The two quarter turns undo each other, in either order. */
  lemma QuarterTurnsInverse<P>(g: Image<P>)
    requires g.Valid()
    ensures RotateCounterClockwise(RotateClockwise(g)) == g
    ensures RotateClockwise(RotateCounterClockwise(g)) == g
  {
    var cw := RotateClockwise(g);
    var back := RotateCounterClockwise(cw);
    forall i | 0 <= i < g.height ensures back.rows[i] == g.rows[i] {
      forall j | 0 <= j < g.width ensures back.rows[i][j] == g.rows[i][j] {
        assert back.rows[i][j] == cw.rows[j][g.height - 1 - i];
      }
    }
    assert back.rows == g.rows;
    var ccw := RotateCounterClockwise(g);
    var fwd := RotateClockwise(ccw);
    forall i | 0 <= i < g.height ensures fwd.rows[i] == g.rows[i] {
      forall j | 0 <= j < g.width ensures fwd.rows[i][j] == g.rows[i][j] {
        assert fwd.rows[i][j] == ccw.rows[g.width - 1 - j][i];
      }
    }
    assert fwd.rows == g.rows;
  }

  /** Every pixel of the input appears in the clockwise turn, at its rotated place. */
  lemma RotateClockwiseMovesPixel<P>(g: Image<P>, r: nat, c: nat)
    requires g.Valid() && r < g.height && c < g.width
    ensures RotateClockwise(g).rows[c][g.height - 1 - r] == g.rows[r][c]
  {
  }

  /**
   * The orientation step of `applySuperResolution`: a landscape frame
   * (width > height) is turned clockwise, any other frame is copied unchanged.
   */
  function Orient<P>(g: Image<P>): (r: Image<P>)
    requires g.Valid()
    ensures r.Valid() && r.height >= r.width
    ensures r.Dims() == if g.width > g.height then g.Dims().Swapped() else g.Dims()
    ensures r.IsEmpty() == g.IsEmpty()
  {
    if g.width > g.height then RotateClockwise(g) else g
  }

  /** A frame is left as it is exactly when it is already upright. */
  lemma OrientFixesExactlyUpright<P>(g: Image<P>)
    requires g.Valid()
    ensures Orient(g) == g <==> g.height >= g.width
  {
  }

  /** Orienting an oriented frame does nothing more. */
  lemma OrientIdempotent<P>(g: Image<P>)
    requires g.Valid()
    ensures Orient(Orient(g)) == Orient(g)
  {
  }
}
