# streamfunctions — a Dafny model

This project models `streamfunctions.py`, a small library of two numerical
routines on a staggered (Arakawa C) 2D grid.

The grid has m face coordinates `xF` and m-1 centre coordinates `xC` along x,
and n faces `yF` and n-1 centres `yC` along y. The x-velocity `u` is sampled
on (xF, yC) and has shape (m, n-1). The y-velocity `v` is sampled on (xC, yF)
and has shape (m-1, n). Both routines produce an (m, n) field on the corners
(xF, yF).

- `streamfunction_direct_integration` reconstructs the stream function psi
  from dpsi/dy = u and dpsi/dx = -v. It allocates a zero field, writes
  `psi_bot` into column 0, sweeps in y over the interior rows 1..m-2, writes
  `psi_left` into row 0, then sweeps in x over the interior columns 1..n-2.
  Modelled imperatively in `streamfunction.dfy`. The result is an
  `array2<real>`, and each NumPy slice assignment is a `forall` statement. The
  two sweeps are loops with invariants, in the methods `SweepY` and `SweepX`.
  Every entry of the result is proved equal to a closed form, `PsiAt`, built
  from running sums (`YIntegral`, `XIntegral`).
- `vorticity` computes dv/dx - du/dy. Each term is a centred difference over
  the non-uniform centre spacing and is computed only on its own interior
  index range; elsewhere it stays zero. The source has no loops, so this is
  modelled as pure functions in `vorticity.dfy`: the entry function
  `VorticityAt` and the whole field `Vorticity`.

`grid.dfy` holds what both routines share: the `Grid` datatype of coordinate
arrays and the shape predicates behind the routines' assertions. Numbers are
Dafny `real`, so all arithmetic is exact. Two-dimensional inputs are values of
type `seq<seq<real>>` (the routines never write to them). The Python
`assert`s are preconditions.

The shape assertions alone force m >= 1 and n >= 1 (the `ensures` of both
`ValidInputs` predicates). The model therefore also covers m = 1 and n = 1,
where NumPy's `1:-1` slices are empty.

Following the code rather than a tempting reading of it: zero velocity does
NOT make every row of psi equal `psi_left`. Row 0 is `psi_left` itself. In
rows 1..m-1, column 0 comes from `psi_bot`, and only columns 1..n-2 repeat
`psi_left[j]`. The top edge (column n-1) of rows 1..m-2 keeps its y-sweep
value. For m, n >= 2, the corner (m-1, n-1) is never written and stays 0. See
`ZeroVKeepsPsiLeft`, `ZeroUKeepsPsiBot` and `ZeroVelocityCornerStaysZero`.

## Model

| member | source | states |
|---|---|---|
| `Streamfunction.ValidInputs` | streamfunctions.py:56-63 | the integrator's assertions: u is (m, n-1), v is (m-1, n), xC and yC have m-1 and n-1 entries, psi_bot and psi_left have m and n entries and agree at index 0; when they hold, m >= 1 and n >= 1 |
| `Streamfunction.Integrate` | streamfunctions.py:56-74 | under the assertions of lines 57-63, returns a freshly allocated (m, n) field equal to the closed form `PsiAt` at every corner; column 0 is `psi_bot` and row 0 is `psi_left` exactly; every entry in columns 1..n-2 of rows 1..m-1 (row k+1) is the entry at (k, j) minus `v[k,j]*(xF[k+1]-xF[k])`; the top edge of rows 1..m-2 is `psi_bot[i]` plus the y-integral of u; with m, n >= 2 the corner (m-1, n-1) is 0 |
| `Streamfunction.SweepY` | streamfunctions.py:67-68 | starting from `psi_bot` in column 0 and zeros elsewhere, the y-sweep leaves `psi_bot[i]` plus the running y-integral of u at (i, j) for interior rows; rows 0 and m-1 stay zero outside column 0 |
| `Streamfunction.SweepX` | streamfunctions.py:71-72 | starting from `psi_left` in row 0 and the y-sweep's values below it, the x-sweep leaves exactly `PsiAt` at every corner |
| `Streamfunction.AfterYStepsStep` | streamfunctions.py:67-68 | one y-step adds `u[i,k]*(yF[k+1]-yF[k])` to the running y-integral of an interior row |
| `Streamfunction.PsiAtXStep` | streamfunctions.py:71-72 | in the closed form, entry (k+1, j) of an x-swept column equals entry (k, j) minus `v[k,j]*(xF[k+1]-xF[k])` |
| `Streamfunction.XIntegralUniform` | streamfunctions.py:71-72 | for uniform v = b the running x-integral telescopes to `b*(xF[i]-xF[0])` |
| `Streamfunction.YIntegralUniform` | streamfunctions.py:67-68 | for uniform u = a the running y-integral telescopes to `a*(yF[j]-yF[0])` |
| `Streamfunction.UniformFlow` | streamfunctions.py:65-72 | a uniform flow is integrated exactly: columns 1..n-2 equal `psi_left[j] - b*(xF[i]-xF[0])`, and the top edge equals `psi_bot[i] + a*(yF[n-1]-yF[0])` |
| `Streamfunction.ZeroVKeepsPsiLeft` | streamfunctions.py:70-72 | with v = 0 and any u, columns 1..n-2 equal `psi_left[j]` in every row |
| `Streamfunction.ZeroUKeepsPsiBot` | streamfunctions.py:65-68 | with u = 0 and any v, the top edge (column n-1) of rows 1..m-2 equals `psi_bot[i]` |
| `Streamfunction.ZeroVelocityCornerStaysZero` | streamfunctions.py:65-72 | a concrete 2 x 2 input with zero velocity and `psi_left = [1, 1]` whose corner (1, 1) is 0, so zero velocity does not make every row equal `psi_left` |
| `Streamfunction.UnitShearScenario` | streamfunctions.py:65-72 | on the 3 x 3 unit grid with u = 1, v = 0, `psi_bot = [0,0,0]` and `psi_left = [0,1,2]`, the field is rows [0,1,2], [0,1,2], [0,1,0] |
| `Vorticity.ValidInputs` | streamfunctions.py:116-120 | the routine's shape assertions, plus distinct consecutive centre coordinates in xC and yC (not checked by the source, see Left out); when they hold, m >= 1 and n >= 1 |
| `Vorticity.DvDxAt` | streamfunctions.py:123-127 | on rows 1..m-2, the entry times the centre spacing `xC[i]-xC[i-1]` equals `v[i,j]-v[i-1,j]`; rows 0 and m-1 keep the allocated 0 |
| `Vorticity.DuDyAt` | streamfunctions.py:124-128 | on columns 1..n-2, the entry times the centre spacing `yC[j]-yC[j-1]` equals `u[i,j]-u[i,j-1]`; columns 0 and n-1 keep the allocated 0 |
| `Vorticity.VorticityAt` | streamfunctions.py:122-130 | interior corners get the centred dv/dx minus the centred du/dy; rows 0 and m-1 get only -du/dy; columns 0 and n-1 get only dv/dx; the four corners are exactly 0 |
| `Vorticity.Vorticity` | streamfunctions.py:116-132 | under the assertions of lines 117-120, the result has shape (m, n) and holds `VorticityAt` at every corner |
| `Vorticity.ShiftInvariant` | streamfunctions.py:127-130 | adding a constant to every entry of u and another to every entry of v leaves the vorticity at every corner unchanged |
| `Vorticity.AxisConstantFlowIsIrrotational` | streamfunctions.py:127-130 | if v does not vary along x and u does not vary along y, the vorticity is 0 at every corner |
| `Vorticity.UniformFlowIsIrrotational` | streamfunctions.py:127-130 | all-zero or uniform u and v give an all-zero (m, n) vorticity field |

## Left out

- Floating point: the model computes over exact reals, so rounding, overflow, inf and nan are not modelled.
- Vorticity.VorticityAt: requires consecutive centre coordinates to differ (`Separated`). The source never checks spacing; where `xC[i] == xC[i-1]` or `yC[j] == yC[j-1]`, NumPy yields inf or nan with a warning, which real division cannot express.
- Vorticity.Vorticity: carries the same spacing requirement, for the same reason.
- Vorticity.ValidInputs, Vorticity.DvDxAt, Vorticity.DuDyAt: carry the same spacing requirement, for the same reason.
- NumPy mechanics (`np.zeros`, slicing, `np.newaxis` broadcasting, `.shape`) become index ranges, `forall` statements and quantified contracts. A matrix with zero rows, such as v when m = 1, carries no column count as a `seq<seq<real>>`. So the shape check on such a v accepts any column count.
- Python assertion semantics (`AssertionError`, asserts stripped under `-O`) are preconditions here. The model says nothing about calls that violate them.
- Array dtypes: integer or other non-float input arrays, and the float result type NumPy picks for them, are not modelled.
- The dead store `vort = np.zeros((m, n))` (line 122) is not modelled: line 130 replaces it.
- Unused parameters: the integrator never reads `xC` or `yC`, and `vorticity` never reads `xF` or `yF`. They stay in the `Grid` value, and the shape checks on them are modelled.
- Docstrings and type hints carry no behaviour beyond the shapes already modelled.
