/**
 * `vorticity`: the discrete curl dv/dx - du/dy of the velocity on the corners
 * of a staggered grid.
 *
 * dv/dx is a centred difference of v over the centre spacing in x, taken on
 * the rows 1 .. m-2 only; du/dy is a centred difference of u over the centre
 * spacing in y, taken on the columns 1 .. n-2 only. Each term is zero outside
 * its own interior range, so edges see only the other term and the four
 * corners see neither.
 */
module Vorticity {
  import opened StaggeredGrid

  /**
   * The shape assertions of the routine, plus distinct consecutive centre
   * coordinates so that every centred difference divides by a non-zero spacing.
   */
  predicate ValidInputs(u: seq<seq<real>>, v: seq<seq<real>>, g: Grid): (ok: bool)
    ensures ok ==> g.M() >= 1 && g.N() >= 1
  {
    ShapesAgree(u, v, g) && Separated(g.xC) && Separated(g.yC)
  }

  /** Centred difference of two samples over the distance between the centres they sit on. */
  function Centred(hi: real, lo: real, cHi: real, cLo: real): real
    requires cHi != cLo
  {
    (hi - lo) / (cHi - cLo)
  }

  /** Entry (i, j) of dvdx: a centred difference on rows 1 .. m-2, zero on rows 0 and m-1. */
  function DvDxAt(v: seq<seq<real>>, g: Grid, i: int, j: int): (d: real)
    requires IsMatrix(v, g.M() - 1, g.N()) && |g.xC| == g.M() - 1 && Separated(g.xC)
    requires 0 <= i < g.M() && 0 <= j < g.N()
    ensures 1 <= i < g.M() - 1 ==> d * (g.xC[i] - g.xC[i - 1]) == v[i][j] - v[i - 1][j]
    ensures i == 0 || i == g.M() - 1 ==> d == 0.0
  {
    if 1 <= i < g.M() - 1 then Centred(v[i][j], v[i - 1][j], g.xC[i], g.xC[i - 1]) else 0.0
  }

  /** Entry (i, j) of dudy: a centred difference on columns 1 .. n-2, zero on columns 0 and n-1. */
  function DuDyAt(u: seq<seq<real>>, g: Grid, i: int, j: int): (d: real)
    requires IsMatrix(u, g.M(), g.N() - 1) && |g.yC| == g.N() - 1 && Separated(g.yC)
    requires 0 <= i < g.M() && 0 <= j < g.N()
    ensures 1 <= j < g.N() - 1 ==> d * (g.yC[j] - g.yC[j - 1]) == u[i][j] - u[i][j - 1]
    ensures j == 0 || j == g.N() - 1 ==> d == 0.0
  {
    if 1 <= j < g.N() - 1 then Centred(u[i][j], u[i][j - 1], g.yC[j], g.yC[j - 1]) else 0.0
  }

  /**
   * Entry (i, j) of the vorticity dvdx - dudy. In the interior both centred
   * differences contribute; on rows 0 and m-1 only -du/dy does, on columns 0
   * and n-1 only dv/dx does, and the four corners are exactly zero.
   */
  function VorticityAt(u: seq<seq<real>>, v: seq<seq<real>>, g: Grid, i: int, j: int): (w: real)
    requires ValidInputs(u, v, g)
    requires 0 <= i < g.M() && 0 <= j < g.N()
    ensures 1 <= i < g.M() - 1 && 1 <= j < g.N() - 1 ==>
              w == Centred(v[i][j], v[i - 1][j], g.xC[i], g.xC[i - 1])
                   - Centred(u[i][j], u[i][j - 1], g.yC[j], g.yC[j - 1])
    ensures (i == 0 || i == g.M() - 1) && 1 <= j < g.N() - 1 ==>
              w == -Centred(u[i][j], u[i][j - 1], g.yC[j], g.yC[j - 1])
    ensures 1 <= i < g.M() - 1 && (j == 0 || j == g.N() - 1) ==>
              w == Centred(v[i][j], v[i - 1][j], g.xC[i], g.xC[i - 1])
    ensures (i == 0 || i == g.M() - 1) && (j == 0 || j == g.N() - 1) ==> w == 0.0
  {
    DvDxAt(v, g, i, j) - DuDyAt(u, g, i, j)
  }

  /** The routine's result: the (m, n) field of corner vorticities. */
  function Vorticity(u: seq<seq<real>>, v: seq<seq<real>>, g: Grid): (w: seq<seq<real>>)
    requires ValidInputs(u, v, g)
    ensures IsMatrix(w, g.M(), g.N())
    ensures forall i, j :: 0 <= i < g.M() && 0 <= j < g.N() ==> w[i][j] == VorticityAt(u, v, g, i, j)
  {
    seq(g.M(), i requires 0 <= i < g.M() =>
      seq(g.N(), j requires 0 <= j < g.N() => VorticityAt(u, v, g, i, j)))
  }

  /**
   * Only differences of u and v enter the result: adding a constant a to every
   * entry of u and a constant b to every entry of v leaves every corner's
   * vorticity unchanged.
   */
  lemma ShiftInvariant(u: seq<seq<real>>, v: seq<seq<real>>, u': seq<seq<real>>, v': seq<seq<real>>, g: Grid, a: real, b: real)
    requires ValidInputs(u, v, g)
    requires IsMatrix(u', g.M(), g.N() - 1) && IsMatrix(v', g.M() - 1, g.N())
    requires forall i, j :: 0 <= i < |u| && 0 <= j < |u[i]| ==> u'[i][j] == u[i][j] + a
    requires forall i, j :: 0 <= i < |v| && 0 <= j < |v[i]| ==> v'[i][j] == v[i][j] + b
    ensures ValidInputs(u', v', g)
    ensures forall i, j :: 0 <= i < g.M() && 0 <= j < g.N() ==> VorticityAt(u', v', g, i, j) == VorticityAt(u, v, g, i, j)
  {
  }

  /**
   * A flow whose v does not vary along x and whose u does not vary along y
   * has zero vorticity at every corner.
   */
  lemma AxisConstantFlowIsIrrotational(u: seq<seq<real>>, v: seq<seq<real>>, g: Grid)
    requires ValidInputs(u, v, g)
    requires forall i, j :: 0 <= i < |v| && 0 <= j < g.N() ==> v[i][j] == v[0][j]
    requires forall i, j :: 0 <= i < |u| && 0 <= j < g.N() - 1 ==> u[i][j] == u[i][0]
    ensures forall i, j :: 0 <= i < g.M() && 0 <= j < g.N() ==> VorticityAt(u, v, g, i, j) == 0.0
  {
    forall i, j | 0 <= i < g.M() && 0 <= j < g.N() ensures VorticityAt(u, v, g, i, j) == 0.0 {
      if 1 <= i < g.M() - 1 {
        assert v[i][j] == v[0][j] == v[i - 1][j];
      }
      if 1 <= j < g.N() - 1 {
        assert u[i][j] == u[i][0] == u[i][j - 1];
      }
    }
  }

  /** All-zero, or more generally uniform, velocities give an all-zero vorticity field. */
  lemma UniformFlowIsIrrotational(u: seq<seq<real>>, v: seq<seq<real>>, g: Grid, a: real, b: real)
    requires ValidInputs(u, v, g) && IsUniform(u, a) && IsUniform(v, b)
    ensures forall i, j :: 0 <= i < g.M() && 0 <= j < g.N() ==> Vorticity(u, v, g)[i][j] == 0.0
  {
  }
}
