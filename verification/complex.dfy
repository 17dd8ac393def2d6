/** Complex scalars, vectors and matrices as exact values.

    The source stores every Hamiltonian, Floquet matrix and eigenvector as a
    `complex128` numpy array; here an entry is a pair of reals and a matrix is
    a sequence of rows.  Only the exact operations the modelled code performs
    (sums, negation, scaling by a real, products of two entries) are given. */
module Complex {

  datatype C = C(re: real, im: real)

  type Vec = seq<C>
  type Mat = seq<seq<C>>

  const Zero: C := C(0.0, 0.0)

  function Add(x: C, y: C): C { C(x.re + y.re, x.im + y.im) }

  function Neg(x: C): C { C(-x.re, -x.im) }

  function Mul(x: C, y: C): C { C(x.re * y.re - x.im * y.im, x.re * y.im + x.im * y.re) }

  /** Multiplication by a real scalar. */
  function Scale(r: real, x: C): C { C(r * x.re, r * x.im) }

  /** The imaginary number `y*i`. */
  function Imag(y: real): C { C(0.0, y) }

  function Real(x: real): C { C(x, 0.0) }

  /** `hf.shape[1]` of a stack of square matrices: the size of one of them,
      0 for an empty stack. */
  function ComponentDim(hf: seq<Mat>): int { if |hf| == 0 then 0 else |hf[0]| }

  /** A matrix with `rows` rows of `cols` entries each. */
  ghost predicate IsMatrix(m: Mat, rows: nat, cols: nat)
  {
    |m| == rows && forall i :: 0 <= i < rows ==> |m[i]| == cols
  }

  function ZeroVec(n: nat): (v: Vec)
    ensures |v| == n && forall i :: 0 <= i < n ==> v[i] == Zero
  {
    seq(n, i => Zero)
  }

  function ZeroMat(rows: nat, cols: nat): (m: Mat)
    ensures IsMatrix(m, rows, cols)
    ensures forall i, j :: 0 <= i < rows && 0 <= j < cols ==> m[i][j] == Zero
  {
    seq(rows, i => ZeroVec(cols))
  }

  function VecAdd(u: Vec, v: Vec): (w: Vec)
    requires |u| == |v|
    ensures |w| == |u| && forall i :: 0 <= i < |u| ==> w[i] == Add(u[i], v[i])
  {
    seq(|u|, i requires 0 <= i < |u| => Add(u[i], v[i]))
  }

  function MatNeg(m: Mat): (r: Mat)
    ensures |r| == |m|
    ensures forall i :: 0 <= i < |m| ==> |r[i]| == |m[i]|
    ensures forall i, j :: 0 <= i < |m| && 0 <= j < |m[i]| ==> r[i][j] == Neg(m[i][j])
  {
    seq(|m|, i requires 0 <= i < |m| => seq(|m[i]|, j requires 0 <= j < |m[i]| => Neg(m[i][j])))
  }

  function MatScale(s: real, m: Mat): (r: Mat)
    ensures |r| == |m|
    ensures forall i :: 0 <= i < |m| ==> |r[i]| == |m[i]|
    ensures forall i, j :: 0 <= i < |m| && 0 <= j < |m[i]| ==> r[i][j] == Scale(s, m[i][j])
  {
    seq(|m|, i requires 0 <= i < |m| => seq(|m[i]|, j requires 0 <= j < |m[i]| => Scale(s, m[i][j])))
  }
}
