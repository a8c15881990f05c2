/**
 * `streamfunction_direct_integration`: reconstructs the stream function psi on
 * the corners of a staggered grid from dpsi/dy = u and dpsi/dx = -v by explicit
 * first-order marching.
 *
 * The routine allocates a zero (m, n) field and then, in this order,
 *   1. writes psi_bot into column 0,
 *   2. sweeps in y: for k = 0 .. n-2, rows 1 .. m-2 of column k+1 get
 *      psi[i, k] + u[i, k] * (yF[k+1] - yF[k]),
 *   3. writes psi_left into row 0,
 *   4. sweeps in x: for k = 0 .. m-2, columns 1 .. n-2 of row k+1 get
 *      psi[k, j] - v[k, j] * (xF[k+1] - xF[k]).
 * Each slice assignment is a Dafny `forall` statement: all right-hand sides are
 * read before any entry is written, as with a NumPy slice assignment.
 */
module Streamfunction {
  import opened StaggeredGrid

  /** The assertions the integrator makes before it computes anything. */
  predicate ValidInputs(u: seq<seq<real>>, v: seq<seq<real>>, g: Grid, psiBot: seq<real>, psiLeft: seq<real>): (ok: bool)
    ensures ok ==> g.M() >= 1 && g.N() >= 1
  {
    ShapesAgree(u, v, g) && |psiBot| == g.M() && |psiLeft| == g.N()
    && psiBot[0] == psiLeft[0]
  }

  /**
   * Running y-integral along row i of u: the sum over k < j of
   * u[i][k] * (yF[k+1] - yF[k]), which the y-sweep accumulates onto psi_bot[i].
   */
  function YIntegral(u: seq<seq<real>>, yF: seq<real>, i: int, j: nat): real
    requires 0 <= i < |u| && j <= |u[i]| && j < |yF|
  {
    if j == 0 then 0.0
    else YIntegral(u, yF, i, j - 1) + u[i][j - 1] * (yF[j] - yF[j - 1])
  }

  /**
   * Running x-integral along column j of v: the sum over k < i of
   * v[k][j] * (xF[k+1] - xF[k]), which the x-sweep subtracts from psi_left[j].
   */
  function XIntegral(v: seq<seq<real>>, xF: seq<real>, i: nat, j: int): real
    requires i <= |v| && i < |xF| && 0 <= j
    requires forall k :: 0 <= k < |v| ==> j < |v[k]|
  {
    if i == 0 then 0.0
    else XIntegral(v, xF, i - 1, j) + v[i - 1][j] * (xF[i] - xF[i - 1])
  }

  /**
   * Closed form of the integrated field at corner (i, j): row 0 is psi_left,
   * column 0 is psi_bot, the columns 1 .. n-2 of rows 1 .. m-1 are x-integrals
   * from the left column, the top edge j = n-1 of rows 1 .. m-2 is the y-integral
   * from the bottom row, and the one remaining corner (m-1, n-1) is never written.
   */
  function PsiAt(u: seq<seq<real>>, v: seq<seq<real>>, g: Grid, psiBot: seq<real>, psiLeft: seq<real>, i: int, j: int): real
    requires ValidInputs(u, v, g, psiBot, psiLeft)
    requires 0 <= i < g.M() && 0 <= j < g.N()
  {
    if i == 0 then psiLeft[j]
    else if j == 0 then psiBot[i]
    else if j < g.N() - 1 then psiLeft[j] - XIntegral(v, g.xF, i, j)
    else if i < g.M() - 1 then psiBot[i] + YIntegral(u, g.yF, i, j)
    else 0.0
  }

  /**
   * Value of corner (i, j) once column 0 is set and the first k steps of the
   * y-sweep are done; rows 0 and m-1 keep the zero they were allocated with.
   */
  ghost function AfterYSteps(u: seq<seq<real>>, g: Grid, psiBot: seq<real>, k: int, i: int, j: int): real
    requires IsMatrix(u, g.M(), g.N() - 1) && |psiBot| == g.M()
    requires 0 <= i < g.M() && 0 <= j < g.N() && k < g.N()
  {
    if j == 0 then psiBot[i]
    else if 0 < i < g.M() - 1 && j <= k then psiBot[i] + YIntegral(u, g.yF, i, j)
    else 0.0
  }

  /** One y-step carries corner (i, k) to corner (i, k + 1) on an interior row. */
  lemma AfterYStepsStep(u: seq<seq<real>>, g: Grid, psiBot: seq<real>, k: int, i: int)
    requires IsMatrix(u, g.M(), g.N() - 1) && |psiBot| == g.M()
    requires 0 <= k < g.N() - 1 && 0 < i < g.M() - 1
    ensures AfterYSteps(u, g, psiBot, k + 1, i, k + 1)
            == AfterYSteps(u, g, psiBot, k, i, k) + u[i][k] * (g.yF[k + 1] - g.yF[k])
  {
    var j: nat := k + 1;
    assert YIntegral(u, g.yF, i, j) == YIntegral(u, g.yF, i, j - 1) + u[i][j - 1] * (g.yF[j] - g.yF[j - 1]);
    if k == 0 {
      assert YIntegral(u, g.yF, i, 0) == 0.0;
    }
  }

  /**
   * Every entry the x-sweep writes is its left neighbour minus one x-step:
   * psi[k+1, j] == psi[k, j] - v[k, j] * (xF[k+1] - xF[k]) for 1 <= j <= n-2.
   */
  lemma PsiAtXStep(u: seq<seq<real>>, v: seq<seq<real>>, g: Grid, psiBot: seq<real>, psiLeft: seq<real>, k: int, j: int)
    requires ValidInputs(u, v, g, psiBot, psiLeft)
    requires 0 <= k < g.M() - 1 && 1 <= j < g.N() - 1
    ensures PsiAt(u, v, g, psiBot, psiLeft, k + 1, j)
            == PsiAt(u, v, g, psiBot, psiLeft, k, j) - v[k][j] * (g.xF[k + 1] - g.xF[k])
  {
    var i: nat := k + 1;
    assert XIntegral(v, g.xF, i, j) == XIntegral(v, g.xF, i - 1, j) + v[i - 1][j] * (g.xF[i] - g.xF[i - 1]);
    if k == 0 {
      assert XIntegral(v, g.xF, 0, j) == 0.0;
    }
  }

  /**
   * streamfunctions.py:67-68: for k = 0 .. n-2, rows 1 .. m-2 of column k+1 become column k
   * plus one y-step. Starting from psi_bot in column 0 and zeros elsewhere, the
   * sweep leaves the y-integrals of u on the interior rows.
   */
  method SweepY(psi: array2<real>, u: seq<seq<real>>, g: Grid, psiBot: seq<real>)
    requires IsMatrix(u, g.M(), g.N() - 1) && |psiBot| == g.M() && g.N() >= 1
    requires psi.Length0 == g.M() && psi.Length1 == g.N()
    requires forall i, j :: 0 <= i < g.M() && 0 <= j < g.N() ==> psi[i, j] == AfterYSteps(u, g, psiBot, 0, i, j)
    modifies psi
    ensures forall i, j :: 0 <= i < g.M() && 0 <= j < g.N() ==> psi[i, j] == AfterYSteps(u, g, psiBot, g.N() - 1, i, j)
  {
    var m, n := psi.Length0, psi.Length1;
    for k := 0 to n - 1
      invariant forall i, j :: 0 <= i < m && 0 <= j < n ==> psi[i, j] == AfterYSteps(u, g, psiBot, k, i, j)
    {
      label Before:
      forall i | 1 <= i < m - 1 {
        psi[i, k + 1] := psi[i, k] + u[i][k] * (g.yF[k + 1] - g.yF[k]);
      }
      forall i, j | 0 <= i < m && 0 <= j < n
        ensures psi[i, j] == AfterYSteps(u, g, psiBot, k + 1, i, j)
      {
        if 1 <= i < m - 1 && j == k + 1 {
          AfterYStepsStep(u, g, psiBot, k, i);
        } else {
          assert psi[i, j] == old@Before(psi[i, j]);
        }
      }
    }
  }

  /**
   * streamfunctions.py:71-72: for k = 0 .. m-2, columns 1 .. n-2 of row k+1 become row k
   * minus one x-step. Starting from psi_left in row 0 and the y-sweep's values
   * below it, the sweep leaves exactly the closed form PsiAt.
   */
  method SweepX(psi: array2<real>, u: seq<seq<real>>, v: seq<seq<real>>, g: Grid, psiBot: seq<real>, psiLeft: seq<real>)
    requires ValidInputs(u, v, g, psiBot, psiLeft)
    requires psi.Length0 == g.M() && psi.Length1 == g.N()
    requires forall i, j :: 0 <= i < g.M() && 0 <= j < g.N() ==>
               psi[i, j] == if i == 0 then psiLeft[j] else AfterYSteps(u, g, psiBot, g.N() - 1, i, j)
    modifies psi
    ensures forall i, j :: 0 <= i < g.M() && 0 <= j < g.N() ==> psi[i, j] == PsiAt(u, v, g, psiBot, psiLeft, i, j)
  {
    var m, n := psi.Length0, psi.Length1;
    for k := 0 to m - 1
      invariant forall i, j :: 0 <= i < m && 0 <= j < n ==>
                  psi[i, j] == if i <= k then PsiAt(u, v, g, psiBot, psiLeft, i, j)
                               else AfterYSteps(u, g, psiBot, n - 1, i, j)
    {
      label Before:
      forall j | 1 <= j < n - 1 {
        psi[k + 1, j] := psi[k, j] - v[k][j] * (g.xF[k + 1] - g.xF[k]);
      }
      forall i, j | 0 <= i < m && 0 <= j < n
        ensures psi[i, j] == if i <= k + 1 then PsiAt(u, v, g, psiBot, psiLeft, i, j)
                             else AfterYSteps(u, g, psiBot, n - 1, i, j)
      {
        if i == k + 1 && 1 <= j < n - 1 {
          PsiAtXStep(u, v, g, psiBot, psiLeft, k, j);
        } else {
          assert psi[i, j] == old@Before(psi[i, j]);
        }
      }
    }
  }

  /**
   * The integrator: allocate a zero (m, n) field, write psi_bot into column 0,
   * sweep in y, write psi_left into row 0, sweep in x. Every entry of the
   * result is the closed form PsiAt; spelled out, the result reproduces both
   * boundaries exactly, every entry the x-sweep writes is its left neighbour
   * minus one x-step, the top edge keeps the y-integral of u, and the
   * top-right corner keeps its initial zero.
   */
  method Integrate(u: seq<seq<real>>, v: seq<seq<real>>, g: Grid, psiBot: seq<real>, psiLeft: seq<real>)
    returns (psi: array2<real>)
    requires ValidInputs(u, v, g, psiBot, psiLeft)
    ensures fresh(psi)
    ensures psi.Length0 == g.M() && psi.Length1 == g.N()
    ensures forall i, j :: 0 <= i < g.M() && 0 <= j < g.N() ==> psi[i, j] == PsiAt(u, v, g, psiBot, psiLeft, i, j)
    ensures forall i :: 0 <= i < g.M() ==> psi[i, 0] == psiBot[i]
    ensures forall j :: 0 <= j < g.N() ==> psi[0, j] == psiLeft[j]
    ensures forall k, j :: 0 <= k < g.M() - 1 && 1 <= j < g.N() - 1 ==>
              psi[k + 1, j] == psi[k, j] - v[k][j] * (g.xF[k + 1] - g.xF[k])
    ensures forall i :: 1 <= i < g.M() - 1 ==> psi[i, g.N() - 1] == psiBot[i] + YIntegral(u, g.yF, i, g.N() - 1)
    ensures g.M() >= 2 && g.N() >= 2 ==> psi[g.M() - 1, g.N() - 1] == 0.0
  {
    var m, n := |g.xF|, |g.yF|;
    psi := new real[m, n]((_, _) => 0.0);
    forall i | 0 <= i < m {
      psi[i, 0] := psiBot[i];
    }
    SweepY(psi, u, g, psiBot);
    forall j | 0 <= j < n {
      psi[0, j] := psiLeft[j];
    }
    SweepX(psi, u, v, g, psiBot, psiLeft);
    forall k, j | 0 <= k < m - 1 && 1 <= j < n - 1 {
      PsiAtXStep(u, v, g, psiBot, psiLeft, k, j);
    }
  }

  /** Under a uniform v = b the x-integral telescopes to b times the distance from the left face. */
  lemma {:induction false} XIntegralUniform(v: seq<seq<real>>, xF: seq<real>, i: nat, j: int, b: real)
    requires i <= |v| && i < |xF| && 0 <= j
    requires forall k :: 0 <= k < |v| ==> j < |v[k]|
    requires IsUniform(v, b)
    ensures XIntegral(v, xF, i, j) == b * (xF[i] - xF[0])
  {
    if i > 0 {
      XIntegralUniform(v, xF, i - 1, j, b);
      assert v[i - 1][j] == b;
    }
  }

  /** Under a uniform u = a the y-integral telescopes to a times the distance from the bottom face. */
  lemma {:induction false} YIntegralUniform(u: seq<seq<real>>, yF: seq<real>, i: int, j: nat, a: real)
    requires 0 <= i < |u| && j <= |u[i]| && j < |yF|
    requires IsUniform(u, a)
    ensures YIntegral(u, yF, i, j) == a * (yF[j] - yF[0])
  {
    if j > 0 {
      YIntegralUniform(u, yF, i, j - 1, a);
      assert u[i][j - 1] == a;
    }
  }

  /**
   * A uniform flow (u = a, v = b everywhere) is integrated exactly: the
   * columns the x-sweep writes fall off linearly in x from psi_left, and the
   * top edge rises linearly in y from psi_bot.
   */
  lemma UniformFlow(u: seq<seq<real>>, v: seq<seq<real>>, g: Grid, psiBot: seq<real>, psiLeft: seq<real>, a: real, b: real)
    requires ValidInputs(u, v, g, psiBot, psiLeft)
    requires IsUniform(u, a) && IsUniform(v, b)
    ensures forall i, j :: 0 <= i < g.M() && 1 <= j < g.N() - 1 ==>
              PsiAt(u, v, g, psiBot, psiLeft, i, j) == psiLeft[j] - b * (g.xF[i] - g.xF[0])
    ensures forall i :: 1 <= i < g.M() - 1 ==>
              PsiAt(u, v, g, psiBot, psiLeft, i, g.N() - 1) == psiBot[i] + a * (g.yF[g.N() - 1] - g.yF[0])
  {
    forall i, j | 0 <= i < g.M() && 1 <= j < g.N() - 1
      ensures PsiAt(u, v, g, psiBot, psiLeft, i, j) == psiLeft[j] - b * (g.xF[i] - g.xF[0])
    {
      XIntegralUniform(v, g.xF, i, j, b);
    }
    forall i | 1 <= i < g.M() - 1
      ensures PsiAt(u, v, g, psiBot, psiLeft, i, g.N() - 1) == psiBot[i] + a * (g.yF[g.N() - 1] - g.yF[0])
    {
      YIntegralUniform(u, g.yF, i, g.N() - 1, a);
    }
  }

  /**
   * With v zero everywhere, every column the x-sweep writes repeats psi_left[j]
   * in every row, whatever u is.
   */
  lemma ZeroVKeepsPsiLeft(u: seq<seq<real>>, v: seq<seq<real>>, g: Grid, psiBot: seq<real>, psiLeft: seq<real>)
    requires ValidInputs(u, v, g, psiBot, psiLeft)
    requires IsUniform(v, 0.0)
    ensures forall i, j :: 0 <= i < g.M() && 1 <= j < g.N() - 1 ==> PsiAt(u, v, g, psiBot, psiLeft, i, j) == psiLeft[j]
  {
    forall i, j | 0 <= i < g.M() && 1 <= j < g.N() - 1
      ensures PsiAt(u, v, g, psiBot, psiLeft, i, j) == psiLeft[j]
    {
      XIntegralUniform(v, g.xF, i, j, 0.0);
    }
  }

  /**
   * With u zero everywhere, the top edge of rows 1 .. m-2 repeats psi_bot[i],
   * whatever v is.
   */
  lemma ZeroUKeepsPsiBot(u: seq<seq<real>>, v: seq<seq<real>>, g: Grid, psiBot: seq<real>, psiLeft: seq<real>)
    requires ValidInputs(u, v, g, psiBot, psiLeft)
    requires IsUniform(u, 0.0)
    ensures forall i :: 1 <= i < g.M() - 1 ==> PsiAt(u, v, g, psiBot, psiLeft, i, g.N() - 1) == psiBot[i]
  {
    forall i | 1 <= i < g.M() - 1
      ensures PsiAt(u, v, g, psiBot, psiLeft, i, g.N() - 1) == psiBot[i]
    {
      YIntegralUniform(u, g.yF, i, g.N() - 1, 0.0);
    }
  }

  /**
   * Zero velocity does not make every row equal psi_left: on a 2 x 2 grid
   * with psi_bot = psi_left = [1, 1] the corner (1, 1) is never written and
   * stays 0, while psi_left[1] is 1.
   */
  lemma ZeroVelocityCornerStaysZero()
    ensures var g := Grid([0.5], [0.0, 1.0], [0.5], [0.0, 1.0]);
            var u, v, ones := [[0.0], [0.0]], [[0.0, 0.0]], [1.0, 1.0];
            ValidInputs(u, v, g, ones, ones) && IsUniform(u, 0.0) && IsUniform(v, 0.0)
            && PsiAt(u, v, g, ones, ones, 1, 1) == 0.0 != ones[1]
  {
  }

  /**
   * The 3 x 3 unit grid with u = 1, v = 0, psi_bot = [0, 0, 0] and
   * psi_left = [0, 1, 2]: rows [0, 1, 2], [0, 1, 2] and [0, 1, 0].
   */
  lemma UnitShearScenario()
    ensures var g := Grid([0.5, 1.5], [0.0, 1.0, 2.0], [0.5, 1.5], [0.0, 1.0, 2.0]);
            var u, v := [[1.0, 1.0], [1.0, 1.0], [1.0, 1.0]], [[0.0, 0.0, 0.0], [0.0, 0.0, 0.0]];
            var bot, left := [0.0, 0.0, 0.0], [0.0, 1.0, 2.0];
            ValidInputs(u, v, g, bot, left)
            && (forall j :: 0 <= j < 3 ==> PsiAt(u, v, g, bot, left, 0, j) == left[j])
            && PsiAt(u, v, g, bot, left, 1, 0) == 0.0
            && PsiAt(u, v, g, bot, left, 1, 1) == 1.0
            && PsiAt(u, v, g, bot, left, 1, 2) == 2.0
            && PsiAt(u, v, g, bot, left, 2, 0) == 0.0
            && PsiAt(u, v, g, bot, left, 2, 1) == 1.0
            && PsiAt(u, v, g, bot, left, 2, 2) == 0.0
  {
  }
}
