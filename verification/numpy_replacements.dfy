/** Array helpers of benchmark/museum_of_forks/p0/helpers/numpy_replacements.py,
    written out as loops over freshly allocated complex buffers.

    `numba_zeros(dims)` accepts any shape; the shapes the engine asks for are
    one-dimensional (a vector of length `dim`) and two-dimensional (`k_dim x
    k_dim`, `dim x dim`), which are the two methods here. */
module NumpyReplacements {
  import opened Complex

  /** `numba_zeros((rows, cols))`: a fresh `rows x cols` buffer, all zero. */
  method Zeros2(rows: nat, cols: nat) returns (ary: array2<C>)
    ensures fresh(ary)
    ensures ary.Length0 == rows && ary.Length1 == cols
    ensures forall i, j :: 0 <= i < rows && 0 <= j < cols ==> ary[i, j] == Zero
  {
    ary := new C[rows, cols];
    for i := 0 to rows
      invariant forall p, q :: 0 <= p < i && 0 <= q < cols ==> ary[p, q] == Zero
    {
      for j := 0 to cols
        invariant forall p, q :: 0 <= p < i && 0 <= q < cols ==> ary[p, q] == Zero
        invariant forall q :: 0 <= q < j ==> ary[i, q] == Zero
      {
        ary[i, j] := Zero;
      }
    }
  }

  /** `numba_zeros(n)`: a fresh vector of length `n`, all zero. */
  method Zeros1(n: nat) returns (ary: array<C>)
    ensures fresh(ary)
    ensures ary.Length == n
    ensures forall i :: 0 <= i < n ==> ary[i] == Zero
  {
    ary := new C[n];
    for i := 0 to n
      invariant forall p :: 0 <= p < i ==> ary[p] == Zero
    {
      ary[i] := Zero;
    }
  }

  /** `numba_outer(a, b)`: the `|a| x |b|` matrix of products `a[i]*b[j]`,
      each cell written once by the nested loops. */
  method Outer(a: seq<C>, b: seq<C>) returns (result: array2<C>)
    ensures fresh(result)
    ensures result.Length0 == |a| && result.Length1 == |b|
    ensures forall i, j :: 0 <= i < |a| && 0 <= j < |b| ==> result[i, j] == Mul(a[i], b[j])
  {
    var m := |a|;
    var n := |b|;
    result := new C[m, n];
    for i := 0 to m
      invariant forall p, q :: 0 <= p < i && 0 <= q < n ==> result[p, q] == Mul(a[p], b[q])
    {
      for j := 0 to n
        invariant forall p, q :: 0 <= p < i && 0 <= q < n ==> result[p, q] == Mul(a[p], b[q])
        invariant forall q :: 0 <= q < j ==> result[i, q] == Mul(a[i], b[q])
      {
        result[i, j] := Mul(a[i], b[j]);
      }
    }
  }
}
