/**
 * The staggered (Arakawa C) grid shared by both routines of streamfunctions.py.
 *
 * Along x there are m face coordinates xF and m - 1 centre coordinates xC;
 * along y there are n faces yF and n - 1 centres yC. The x-velocity u lives on
 * (xF, yC) and has shape (m, n - 1); the y-velocity v lives on (xC, yF) and has
 * shape (m - 1, n). Both outputs live on the corners (xF, yF), shape (m, n).
 *
 * Two-dimensional inputs are values of type seq<seq<real>> (row-major, u[i][j]
 * is NumPy's u[i, j]); the routines never write to them.
 */
module StaggeredGrid {

  /** The four one-dimensional coordinate arrays of a staggered grid. */
  datatype Grid = Grid(xC: seq<real>, xF: seq<real>, yC: seq<real>, yF: seq<real>)
  {
    /** Number of x-faces, `m = len(xF)`. */
    function M(): nat { |xF| }

    /** Number of y-faces, `n = len(yF)`. */
    function N(): nat { |yF| }
  }

  /** `a` has NumPy shape (rows, cols): exactly `rows` rows of `cols` entries each. */
  predicate IsMatrix(a: seq<seq<real>>, rows: int, cols: int)
  {
    |a| == rows && forall i :: 0 <= i < |a| ==> |a[i]| == cols
  }

  /**
   * The shape assertions both routines make before computing anything:
   * u is (m, n - 1), v is (m - 1, n), xC has m - 1 and yC has n - 1 entries.
   */
  predicate ShapesAgree(u: seq<seq<real>>, v: seq<seq<real>>, g: Grid)
  {
    IsMatrix(u, g.M(), g.N() - 1) && IsMatrix(v, g.M() - 1, g.N())
    && |g.xC| == g.M() - 1 && |g.yC| == g.N() - 1
  }

  /** No two consecutive coordinates coincide, so a centred difference over them is defined. */
  predicate Separated(c: seq<real>)
  {
    forall i :: 1 <= i < |c| ==> c[i] != c[i - 1]
  }

  /** Every entry of `a` equals `c`. */
  predicate IsUniform(a: seq<seq<real>>, c: real)
  {
    forall i, j :: 0 <= i < |a| && 0 <= j < |a[i]| ==> a[i][j] == c
  }
}
