/** Assembly of the Floquet matrix K and of its derivative dK
    (`numba_assemble_k`, `numba_assemble_dk` in floq/core/evolution.py).

    K is a `k_dim x k_dim` matrix made of `nz x nz` blocks of side `dim`.
    Block `(r, c)` holds the Fourier component of `hf` whose signed index is
    `r - c` (row minus column), when that index is within the `nc` components;
    the diagonal blocks also get `omega * i_to_n(r, nz)` added on their
    diagonal.  Every other block is zero.  The source fills the buffer one
    block diagonal at a time with a `while` loop; the method below does the
    same and is proved to produce `KSpec`. */
module Assemble {
  import opened Seqs
  import opened Complex
  import opened Index
  import BlockMatrix
  import NumpyReplacements

  /** Well-formed Fourier components: `nc` matrices of side `dim`. */
  ghost predicate Components(hf: seq<Mat>, dim: nat, nc: nat)
  {
    |hf| == nc && forall q :: 0 <= q < nc ==> IsMatrix(hf[q], dim, dim)
  }

  /** `current_component + np.identity(dim)*shift`. */
  function Shifted(comp: Mat, dim: nat, shift: real): (b: Mat)
    requires IsMatrix(comp, dim, dim)
    ensures IsMatrix(b, dim, dim)
  {
    seq(dim, a requires 0 <= a < dim =>
      seq(dim, c requires 0 <= c < dim =>
        Add(comp[a][c], if a == c then Real(shift) else Zero)))
  }

  /** The block written at `(row, row - n)` while placing Fourier index `n`. */
  function PlacedBlock(comp: Mat, dim: nat, n: int, row: int, nz: int, omega: real): (b: Mat)
    requires IsMatrix(comp, dim, dim)
    ensures IsMatrix(b, dim, dim)
  {
    if n == 0 then Shifted(comp, dim, omega * (IToN(row, nz) as real)) else comp
  }

  /** Entry `(a, b)` of block `(r, c)` of K. */
  function KBlockEntry(hf: seq<Mat>, dim: nat, nz: int, nc: nat, omega: real,
                       r: int, c: int, a: nat, b: nat): C
    requires Components(hf, dim, nc) && a < dim && b < dim
  {
    var n := r - c;
    if -Cutoff(nc) <= n <= Cutoff(nc) then
      assert nc != 0;
      PlacedBlock(hf[NToI(n, nc)], dim, n, r, nz, omega)[a][b]
    else Zero
  }

  /** Entry `(i, j)` of K. */
  function KEntry(hf: seq<Mat>, dim: nat, nz: int, nc: nat, omega: real, i: nat, j: nat): C
    requires Components(hf, dim, nc) && dim > 0
  {
    KBlockEntry(hf, dim, nz, nc, omega, i / dim, j / dim, i % dim, j % dim)
  }

  /** The Floquet matrix K as a value. */
  function KSpec(hf: seq<Mat>, dim: nat, nz: nat, nc: nat, omega: real): (k: Mat)
    requires Components(hf, dim, nc)
    ensures IsMatrix(k, dim * nz, dim * nz)
  {
    if dim == 0 then ZeroMat(0, 0)
    else
      seq(dim * nz, i requires 0 <= i < dim * nz =>
        seq(dim * nz, j requires 0 <= j < dim * nz => KEntry(hf, dim, nz, nc, omega, i, j)))
  }

  // ---------------------------------------------------------------------
  // The diagonal walk of the `while` loop.

  function StartRow(n: int): int { Max(0, n) }
  function StartCol(n: int): int { Max(0, -n) }
  function StopRow(n: int, nz: int): int { Min((nz - 1) + n, nz - 1) }
  function StopCol(n: int, nz: int): int { Min((nz - 1) - n, nz - 1) }

  /** The `while` loop for Fourier index `n` visits exactly the blocks of the
      `nz x nz` grid on the diagonal `row - col == n`, and there are
      `max(0, nz - |n|)` of them. */
  lemma DiagonalWalk(n: int, nz: int, row: int)
    requires nz >= 0
    ensures (StartRow(n) <= row <= StopRow(n, nz) && StartCol(n) <= row - n <= StopCol(n, nz))
            <==> (0 <= row < nz && 0 <= row - n < nz)
    ensures StartRow(n) - StartCol(n) == n
    ensures Max(0, StopRow(n, nz) - StartRow(n) + 1) == Max(0, nz - (if n < 0 then -n else n))
  {
  }

  // ---------------------------------------------------------------------
  // Loop invariant: which blocks are already placed.

  /** Block `(r, c)` has been written once the walk has reached diagonal `n`
      and, on that diagonal, row `row`. */
  predicate Placed(r: int, c: int, n: int, row: int)
  {
    r - c < n || (r - c == n && r < row)
  }

  /** No block is written twice: the block `(row, row - n)` written at step
      `(n, row)` is not yet placed before the step and is placed after it,
      every block placed before stays placed, and the step places no other
      block. */
  lemma WrittenOnce(n: int, row: int, r: int, c: int)
    ensures !Placed(row, row - n, n, row) && Placed(row, row - n, n, row + 1)
    ensures Placed(r, c, n, row) ==> Placed(r, c, n, row + 1)
    ensures Placed(r, c, n, row + 1) && !Placed(r, c, n, row) ==> r == row && c == row - n
  {
  }

  ghost predicate PartlyBuilt(e: Mat, hf: seq<Mat>, dim: nat, nz: nat, nc: nat, omega: real, n: int, row: int)
    requires Components(hf, dim, nc) && dim > 0
  {
    IsMatrix(e, dim * nz, dim * nz) &&
    forall i, j :: 0 <= i < dim * nz && 0 <= j < dim * nz ==>
      e[i][j] == if Placed(i / dim, j / dim, n, row) then KEntry(hf, dim, nz, nc, omega, i, j) else Zero
  }

  lemma OwnBlock(i: nat, d: nat, nz: nat)
    requires d > 0 && i < d * nz
    ensures (i / d) * d <= i < (i / d) * d + d
    ensures 0 <= i / d < nz
  {
    if i / d >= nz {
      BlockMatrix.MulMono(nz, i / d, d);
    }
  }

  lemma StartBuilt(e: Mat, hf: seq<Mat>, dim: nat, nz: nat, nc: nat, omega: real)
    requires Components(hf, dim, nc) && dim > 0
    requires IsMatrix(e, dim * nz, dim * nz)
    requires forall i, j :: 0 <= i < dim * nz && 0 <= j < dim * nz ==> e[i][j] == Zero
    ensures PartlyBuilt(e, hf, dim, nz, nc, omega, -Cutoff(nc), 0)
  {
  }

  /** Blocks of diagonal `n` above the walk's first row are outside the grid. */
  lemma EnterDiagonal(e: Mat, hf: seq<Mat>, dim: nat, nz: nat, nc: nat, omega: real, n: int)
    requires Components(hf, dim, nc) && dim > 0
    requires PartlyBuilt(e, hf, dim, nz, nc, omega, n, 0)
    ensures PartlyBuilt(e, hf, dim, nz, nc, omega, n, StartRow(n))
  {
    forall i, j | 0 <= i < dim * nz && 0 <= j < dim * nz
      ensures Placed(i / dim, j / dim, n, 0) == Placed(i / dim, j / dim, n, StartRow(n))
    {
      OwnBlock(i, dim, nz);
      OwnBlock(j, dim, nz);
    }
  }

  /** Writing the block at `(row, row - n)` extends the built part by one block. */
  lemma {:induction false} StepBuilt(e: Mat, e': Mat, hf: seq<Mat>, dim: nat, nz: nat, nc: nat, omega: real,
                                     n: int, row: nat, col: nat)
    requires Components(hf, dim, nc) && dim > 0
    requires -Cutoff(nc) <= n <= Cutoff(nc) && row - col == n
    requires PartlyBuilt(e, hf, dim, nz, nc, omega, n, row)
    requires e' == BlockMatrix.WithBlock(e, PlacedBlock(hf[NToI(n, nc)], dim, n, row, nz, omega), dim, row, col)
    ensures PartlyBuilt(e', hf, dim, nz, nc, omega, n, row + 1)
  {
    var blk := PlacedBlock(hf[NToI(n, nc)], dim, n, row, nz, omega);
    forall i, j | 0 <= i < dim * nz && 0 <= j < dim * nz
      ensures e'[i][j] == if Placed(i / dim, j / dim, n, row + 1) then KEntry(hf, dim, nz, nc, omega, i, j) else Zero
    {
      OwnBlock(i, dim, nz);
      OwnBlock(j, dim, nz);
      if BlockMatrix.InBlock(i, j, dim, row, col) {
        BlockMatrix.BlockOfIndex(i, dim, row);
        BlockMatrix.BlockOfIndex(j, dim, col);
        assert e'[i][j] == blk[i % dim][j % dim];
      } else {
        assert e'[i][j] == e[i][j];
        assert !(i / dim == row && j / dim == col);
      }
    }
  }

  /** When the walk stops, the whole diagonal `n` is placed. */
  lemma LeaveDiagonal(e: Mat, hf: seq<Mat>, dim: nat, nz: nat, nc: nat, omega: real, n: int, row: int)
    requires Components(hf, dim, nc) && dim > 0
    requires PartlyBuilt(e, hf, dim, nz, nc, omega, n, row)
    requires !(row <= StopRow(n, nz) && row - n <= StopCol(n, nz))
    ensures PartlyBuilt(e, hf, dim, nz, nc, omega, n + 1, 0)
  {
    forall i, j | 0 <= i < dim * nz && 0 <= j < dim * nz
      ensures Placed(i / dim, j / dim, n, row) == Placed(i / dim, j / dim, n + 1, 0)
    {
      OwnBlock(i, dim, nz);
      OwnBlock(j, dim, nz);
    }
  }

  /** After the last Fourier index every block is placed, and the blocks
      beyond the last index are zero in `KSpec` as well. */
  lemma FinishBuilt(e: Mat, hf: seq<Mat>, dim: nat, nz: nat, nc: nat, omega: real, n: int)
    requires Components(hf, dim, nc) && dim > 0
    requires n > Cutoff(nc)
    requires PartlyBuilt(e, hf, dim, nz, nc, omega, n, 0)
    ensures e == KSpec(hf, dim, nz, nc, omega)
  {
    var k := KSpec(hf, dim, nz, nc, omega);
    forall i | 0 <= i < dim * nz
      ensures e[i] == k[i]
    {
      forall j | 0 <= j < dim * nz
        ensures e[i][j] == k[i][j]
      {
      }
    }
  }

  /** `numba_assemble_k`: places every Fourier component block diagonal by
      block diagonal and returns exactly `KSpec`. */
  method AssembleK(hf: seq<Mat>, dim: nat, kDim: nat, nz: nat, nc: nat, omega: real) returns (k: array2<C>)
    requires Components(hf, dim, nc)
    requires kDim == dim * nz
    ensures fresh(k) && k.Length0 == kDim && k.Length1 == kDim
    ensures BlockMatrix.Entries(k) == KSpec(hf, dim, nz, nc, omega)
  {
    var hfMax := Cutoff(nc);
    k := NumpyReplacements.Zeros2(kDim, kDim);
    if dim == 0 {
      assert BlockMatrix.Entries(k) == ZeroMat(0, 0);
      return;
    }
    StartBuilt(BlockMatrix.Entries(k), hf, dim, nz, nc, omega);
    var n := -hfMax;
    while n <= hfMax
      invariant k.Length0 == kDim && k.Length1 == kDim
      invariant n > hfMax ==> n == hfMax + 1 || hfMax < 0
      invariant PartlyBuilt(BlockMatrix.Entries(k), hf, dim, nz, nc, omega, n, 0)
      decreases hfMax - n
    {
      var startRow := Max(0, n);
      var startCol := Max(0, -n);
      var stopRow := Min((nz - 1) + n, nz - 1);
      var stopCol := Min((nz - 1) - n, nz - 1);
      var row := startRow;
      var col := startCol;
      var current := hf[NToI(n, nc)];
      EnterDiagonal(BlockMatrix.Entries(k), hf, dim, nz, nc, omega, n);
      while row <= stopRow && col <= stopCol
        invariant k.Length0 == kDim && k.Length1 == kDim
        invariant row >= 0 && col >= 0 && row - col == n
        invariant PartlyBuilt(BlockMatrix.Entries(k), hf, dim, nz, nc, omega, n, row)
        decreases stopRow - row
      {
        BlockMatrix.MulMono(row + 1, nz, dim);
        BlockMatrix.MulMono(col + 1, nz, dim);
        ghost var before := BlockMatrix.Entries(k);
        var block := PlacedBlock(current, dim, n, row, nz, omega);
        BlockMatrix.SetBlock(block, k, dim, nz, row, col);
        StepBuilt(before, BlockMatrix.Entries(k), hf, dim, nz, nc, omega, n, row, col);
        row := row + 1;
        col := col + 1;
      }
      LeaveDiagonal(BlockMatrix.Entries(k), hf, dim, nz, nc, omega, n, row);
      n := n + 1;
    }
    FinishBuilt(BlockMatrix.Entries(k), hf, dim, nz, nc, omega, n);
  }

  // ---------------------------------------------------------------------
  // What K looks like, block by block.

  /** Offset `a` of block `r` is a valid row of K and lies in that block. */
  lemma IndexInBlock(r: nat, a: nat, dim: nat, nz: nat)
    requires r < nz && a < dim
    ensures r * dim + a < dim * nz
    ensures (r * dim + a) / dim == r && (r * dim + a) % dim == a
  {
    BlockMatrix.MulMono(r + 1, nz, dim);
    assert (r + 1) * dim == r * dim + dim;
    BlockMatrix.BlockOfIndex(r * dim + a, dim, r);
  }

  /** Entry `(a, b)` of block `(r, c)` of `KSpec` is `KBlockEntry`. */
  lemma KEntryOfBlock(hf: seq<Mat>, dim: nat, nz: nat, nc: nat, omega: real, r: nat, c: nat, a: nat, b: nat)
    requires Components(hf, dim, nc)
    requires r < nz && c < nz && a < dim && b < dim
    ensures r * dim + a < dim * nz && c * dim + b < dim * nz
    ensures KSpec(hf, dim, nz, nc, omega)[r * dim + a][c * dim + b] == KBlockEntry(hf, dim, nz, nc, omega, r, c, a, b)
  {
    IndexInBlock(r, a, dim, nz);
    IndexInBlock(c, b, dim, nz);
    var i, j := r * dim + a, c * dim + b;
    assert KSpec(hf, dim, nz, nc, omega)[i][j] == KEntry(hf, dim, nz, nc, omega, i, j);
  }

  /** The three kinds of block of K: an off-diagonal block within the band
      is the Fourier component of index row minus column, a diagonal block is
      the zeroth component shifted by `omega * i_to_n(r, nz)`, and a block
      outside the band is zero. */
  lemma KBlocks(hf: seq<Mat>, dim: nat, nz: nat, nc: nat, omega: real, r: nat, c: nat)
    requires Components(hf, dim, nc)
    requires r < nz && c < nz
    ensures r * dim + dim <= dim * nz && c * dim + dim <= dim * nz
    ensures r != c && -Cutoff(nc) <= r - c <= Cutoff(nc) ==>
              BlockMatrix.GetBlock(KSpec(hf, dim, nz, nc, omega), dim, nz, r, c) == hf[NToI(r - c, nc)]
    ensures r == c && Cutoff(nc) >= 0 ==>
              BlockMatrix.GetBlock(KSpec(hf, dim, nz, nc, omega), dim, nz, r, c)
              == Shifted(hf[NToI(0, nc)], dim, omega * (IToN(r, nz) as real))
    ensures !(-Cutoff(nc) <= r - c <= Cutoff(nc)) ==>
              BlockMatrix.GetBlock(KSpec(hf, dim, nz, nc, omega), dim, nz, r, c) == ZeroMat(dim, dim)
  {
    BlockMatrix.MulMono(r + 1, nz, dim);
    BlockMatrix.MulMono(c + 1, nz, dim);
    assert (r + 1) * dim == r * dim + dim && (c + 1) * dim == c * dim + dim;
    var k := KSpec(hf, dim, nz, nc, omega);
    var g := BlockMatrix.GetBlock(k, dim, nz, r, c);
    forall a, b | 0 <= a < dim && 0 <= b < dim
      ensures g[a][b] == KBlockEntry(hf, dim, nz, nc, omega, r, c, a, b)
    {
      KEntryOfBlock(hf, dim, nz, nc, omega, r, c, a, b);
    }
    if -Cutoff(nc) <= r - c <= Cutoff(nc) {
      var placed := PlacedBlock(hf[NToI(r - c, nc)], dim, r - c, r, nz, omega);
      SameMatrix(g, placed, dim);
      if r == c {
        var n := r - c;
        assert n == 0;
        assert NToI(n, nc) == NToI(0, nc);
        assert placed == PlacedBlock(hf[NToI(0, nc)], dim, 0, r, nz, omega);
      }
    } else {
      SameMatrix(g, ZeroMat(dim, dim), dim);
    }
  }

  /** Two `dim x dim` matrices with the same entries are equal. */
  lemma SameMatrix(x: Mat, y: Mat, dim: nat)
    requires IsMatrix(x, dim, dim) && IsMatrix(y, dim, dim)
    requires forall a, b :: 0 <= a < dim && 0 <= b < dim ==> x[a][b] == y[a][b]
    ensures x == y
  {
    forall a | 0 <= a < dim
      ensures x[a] == y[a]
    {
    }
  }

  /** With `omega == 0` the diagonal shift vanishes. */
  lemma ShiftedByZero(comp: Mat, dim: nat)
    requires IsMatrix(comp, dim, dim)
    ensures Shifted(comp, dim, 0.0) == comp
  {
    var s := Shifted(comp, dim, 0.0);
    forall a | 0 <= a < dim
      ensures s[a] == comp[a]
    {
    }
  }

  /** `numba_assemble_dk`: channel `c` is K assembled from `dhf[c]` with
      `omega = 0`.  The `(npm, k_dim, k_dim)` buffer is a sequence of
      `npm` matrices here. */
  method AssembleDk(dhf: seq<seq<Mat>>, npm: nat, dim: nat, kDim: nat, nz: nat, nc: nat) returns (dk: seq<Mat>)
    requires npm <= |dhf| && forall c :: 0 <= c < npm ==> Components(dhf[c], dim, nc)
    requires kDim == dim * nz
    ensures |dk| == npm
    ensures forall c :: 0 <= c < npm ==> dk[c] == KSpec(dhf[c], dim, nz, nc, 0.0)
  {
    dk := [];
    for c := 0 to npm
      invariant |dk| == c
      invariant forall q :: 0 <= q < c ==> dk[q] == KSpec(dhf[q], dim, nz, nc, 0.0)
    {
      var kc := AssembleK(dhf[c], dim, kDim, nz, nc, 0.0);
      dk := dk + [BlockMatrix.Entries(kc)];
    }
  }

  /** Every block of a dK channel is a plain component of `dhf[c]`: no
      diagonal shift, whatever the zone. */
  lemma DkBlocks(dhf: seq<Mat>, dim: nat, nz: nat, nc: nat, r: nat, c: nat)
    requires Components(dhf, dim, nc)
    requires r < nz && c < nz
    ensures r * dim + dim <= dim * nz && c * dim + dim <= dim * nz
    ensures -Cutoff(nc) <= r - c <= Cutoff(nc) ==>
              BlockMatrix.GetBlock(KSpec(dhf, dim, nz, nc, 0.0), dim, nz, r, c) == dhf[NToI(r - c, nc)]
  {
    KBlocks(dhf, dim, nz, nc, 0.0, r, c);
    if r == c && Cutoff(nc) >= 0 {
      ShiftedByZero(dhf[NToI(0, nc)], dim);
    }
  }
}
