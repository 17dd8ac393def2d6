/** Block access into a block-structured matrix (floq/blockmatrix.py).

    A matrix is divided into square blocks of side `dimBlock`; block
    `(row, col)` is the rectangle of rows `[row*dimBlock, row*dimBlock+dimBlock)`
    and columns `[col*dimBlock, col*dimBlock+dimBlock)`.  Reading a block is a
    pure slice; writing one changes the caller's matrix in place.  The
    block count `nBlock` is accepted and ignored, as in the source. */
module BlockMatrix {
  import opened Complex
  import opened PyInt

  /** Entry `(i, j)` lies in block `(row, col)`. */
  predicate InBlock(i: int, j: int, d: int, row: int, col: int)
  {
    row * d <= i < row * d + d && col * d <= j < col * d + d
  }

  /** The contents of a two-dimensional buffer, as a value. */
  function Entries(m: array2<C>): (e: Mat)
    reads m
    ensures IsMatrix(e, m.Length0, m.Length1)
    ensures forall i, j :: 0 <= i < m.Length0 && 0 <= j < m.Length1 ==> e[i][j] == m[i, j]
  {
    seq(m.Length0, i requires 0 <= i < m.Length0 reads m =>
      seq(m.Length1, j requires 0 <= j < m.Length1 reads m => m[i, j]))
  }

  /** Block `(row, col)` of side `d` lies inside a `rows x cols` matrix. */
  predicate Fits(rows: int, cols: int, d: nat, row: nat, col: nat)
  {
    row * d + d <= rows && col * d + d <= cols
  }

  /** `get_block_from_matrix`. */
  function GetBlock(m: Mat, dimBlock: nat, nBlock: int, row: nat, col: nat): (b: Mat)
    requires row * dimBlock + dimBlock <= |m|
    requires forall i :: 0 <= i < |m| ==> col * dimBlock + dimBlock <= |m[i]|
    ensures IsMatrix(b, dimBlock, dimBlock)
    ensures forall a, c :: 0 <= a < dimBlock && 0 <= c < dimBlock ==>
              b[a][c] == m[row * dimBlock + a][col * dimBlock + c]
  {
    seq(dimBlock, a requires 0 <= a < dimBlock =>
      m[row * dimBlock + a][col * dimBlock .. col * dimBlock + dimBlock])
  }

  /** The matrix `m` after block `(row, col)` has been overwritten by `block`:
      the value `set_block_in_matrix` leaves behind. */
  function WithBlock(m: Mat, block: Mat, d: nat, row: nat, col: nat): (r: Mat)
    requires IsMatrix(block, d, d)
    ensures |r| == |m| && forall i :: 0 <= i < |m| ==> |r[i]| == |m[i]|
  {
    seq(|m|, i requires 0 <= i < |m| =>
      seq(|m[i]|, j requires 0 <= j < |m[i]| =>
        if InBlock(i, j, d, row, col) then block[i - row * d][j - col * d] else m[i][j]))
  }

  /** `set_block_in_matrix`: the numpy slice assignment, entry by entry.  The
      new matrix is `WithBlock` of the old one: the rectangle holds `block`
      and every entry outside it is unchanged. */
  method SetBlock(block: Mat, m: array2<C>, dimBlock: nat, nBlock: int, row: nat, col: nat)
    requires IsMatrix(block, dimBlock, dimBlock)
    requires Fits(m.Length0, m.Length1, dimBlock, row, col)
    modifies m
    ensures forall i, j :: 0 <= i < m.Length0 && 0 <= j < m.Length1 ==>
              m[i, j] == if InBlock(i, j, dimBlock, row, col)
                         then block[i - row * dimBlock][j - col * dimBlock]
                         else old(m[i, j])
    ensures Entries(m) == WithBlock(old(Entries(m)), block, dimBlock, row, col)
  {
    var d := dimBlock;
    var a := 0;
    while a < d
      invariant 0 <= a <= d
      invariant forall i, j :: 0 <= i < m.Length0 && 0 <= j < m.Length1 ==>
                  m[i, j] == if InBlock(i, j, d, row, col) && i < row * d + a
                             then block[i - row * d][j - col * d] else old(m[i, j])
    {
      var b := 0;
      while b < d
        invariant 0 <= b <= d
        invariant forall i, j :: 0 <= i < m.Length0 && 0 <= j < m.Length1 ==>
                    m[i, j] == if InBlock(i, j, d, row, col)
                                  && (i < row * d + a || (i == row * d + a && j < col * d + b))
                               then block[i - row * d][j - col * d] else old(m[i, j])
      {
        m[row * d + a, col * d + b] := block[a][b];
        b := b + 1;
      }
      a := a + 1;
    }
    ghost var before := old(Entries(m));
    ghost var after := WithBlock(before, block, d, row, col);
    assert forall i :: 0 <= i < m.Length0 ==> Entries(m)[i] == after[i];
  }

  /** Reading back a block just written gives that block. */
  lemma GetAfterSet(m: Mat, block: Mat, d: nat, nBlock: int, row: nat, col: nat)
    requires IsMatrix(block, d, d)
    requires row * d + d <= |m|
    requires forall i :: 0 <= i < |m| ==> col * d + d <= |m[i]|
    ensures GetBlock(WithBlock(m, block, d, row, col), d, nBlock, row, col) == block
  {
    var w := WithBlock(m, block, d, row, col);
    var r := GetBlock(w, d, nBlock, row, col);
    forall a | 0 <= a < d
      ensures r[a] == block[a]
    {
      forall c | 0 <= c < d
        ensures r[a][c] == block[a][c]
      {
        var i, j := row * d + a, col * d + c;
        assert i - row * d == a && j - col * d == c;
        assert InBlock(i, j, d, row, col);
        assert w[i][j] == block[a][c];
      }
    }
  }

  /** With positive side, a row index lies in exactly one block row. */
  lemma BlockOfIndex(i: int, d: int, r: int)
    requires d > 0 && r * d <= i < r * d + d
    ensures r == i / d && i - r * d == i % d
  {
    DivModUnique(i, d, r, i - r * d);
  }

  /** Two distinct blocks never share an entry. */
  lemma BlocksDisjoint(i: int, j: int, d: nat, r1: nat, c1: nat, r2: nat, c2: nat)
    requires d > 0 && InBlock(i, j, d, r1, c1) && InBlock(i, j, d, r2, c2)
    ensures r1 == r2 && c1 == c2
  {
    BlockOfIndex(i, d, r1);
    BlockOfIndex(i, d, r2);
    BlockOfIndex(j, d, c1);
    BlockOfIndex(j, d, c2);
  }

  /** Writes to two different blocks do not interfere, so their order does
      not matter. */
  lemma WritesCommute(m: Mat, b1: Mat, b2: Mat, d: nat, r1: nat, c1: nat, r2: nat, c2: nat)
    requires d > 0 && IsMatrix(b1, d, d) && IsMatrix(b2, d, d)
    requires (r1, c1) != (r2, c2)
    ensures WithBlock(WithBlock(m, b1, d, r1, c1), b2, d, r2, c2)
            == WithBlock(WithBlock(m, b2, d, r2, c2), b1, d, r1, c1)
  {
    var x := WithBlock(WithBlock(m, b1, d, r1, c1), b2, d, r2, c2);
    var y := WithBlock(WithBlock(m, b2, d, r2, c2), b1, d, r1, c1);
    forall i | 0 <= i < |m|
      ensures x[i] == y[i]
    {
      forall j | 0 <= j < |m[i]|
        ensures x[i][j] == y[i][j]
      {
        if InBlock(i, j, d, r1, c1) && InBlock(i, j, d, r2, c2) {
          BlocksDisjoint(i, j, d, r1, c1, r2, c2);
        }
      }
    }
  }

  /** One `set_block_in_matrix` call, recorded as data. */
  datatype BlockWrite = BlockWrite(row: nat, col: nat, block: Mat)

  predicate WritesFit(ws: seq<BlockWrite>, d: nat)
  {
    forall k :: 0 <= k < |ws| ==> IsSquare(ws[k].block, d)
  }

  predicate IsSquare(b: Mat, d: nat)
  {
    |b| == d && forall i :: 0 <= i < d ==> |b[i]| == d
  }

  /** The matrix after performing the writes `ws` in order. */
  function ApplyWrites(m: Mat, ws: seq<BlockWrite>, d: nat): (r: Mat)
    requires WritesFit(ws, d)
    ensures |r| == |m| && forall i :: 0 <= i < |m| ==> |r[i]| == |m[i]|
  {
    if ws == [] then m
    else
      var last := ws[|ws| - 1];
      WithBlock(ApplyWrites(m, ws[..|ws| - 1], d), last.block, d, last.row, last.col)
  }

  /** Every block of `target`, in row-major order, as the repository's block
      test writes them. */
  function AllBlocks(target: Mat, d: nat, nb: nat): (ws: seq<BlockWrite>)
    requires IsMatrix(target, nb * d, nb * d)
    ensures |ws| == nb * nb && WritesFit(ws, d)
  {
    seq(nb * nb, k requires 0 <= k < nb * nb =>
      BlockWriteAt(target, d, nb, k))
  }

  function BlockWriteAt(target: Mat, d: nat, nb: nat, k: nat): (w: BlockWrite)
    requires IsMatrix(target, nb * d, nb * d) && k < nb * nb
    ensures w.row == k / nb && w.col == k % nb && IsSquare(w.block, d)
  {
    BlockBounds(k, nb, d);
    BlockWrite(k / nb, k % nb, GetBlock(target, d, nb, k / nb, k % nb))
  }

  lemma BlockBounds(k: nat, nb: nat, d: nat)
    requires k < nb * nb
    ensures k / nb < nb && k % nb < nb
    ensures (k / nb) * d + d <= nb * d && (k % nb) * d + d <= nb * d
  {
    var q, r := k / nb, k % nb;
    assert k == q * nb + r;
    if q >= nb {
      MulMono(nb, q, nb);
    }
    MulMono(q + 1, nb, d);
    MulMono(r + 1, nb, d);
  }

  /** Multiplying by a non-negative number keeps the order. */
  lemma {:induction false} MulMono(a: int, b: int, c: nat)
    requires a <= b
    ensures a * c <= b * c
  {
    if c > 0 {
      MulMono(a, b, c - 1);
      assert a * c == a * (c - 1) + a && b * c == b * (c - 1) + b;
    }
  }

  /** Writing every block of `target` into any matrix of the same shape, in
      row-major order, reproduces `target`. */
  lemma {:induction false} Reconstruct(m: Mat, target: Mat, d: nat, nb: nat)
    requires d > 0
    requires IsMatrix(m, nb * d, nb * d) && IsMatrix(target, nb * d, nb * d)
    ensures ApplyWrites(m, AllBlocks(target, d, nb), d) == target
  {
    var ws := AllBlocks(target, d, nb);
    ReconstructPrefix(m, target, d, nb, nb * nb);
    assert ws[..nb * nb] == ws;
    var r := ApplyWrites(m, ws, d);
    forall i | 0 <= i < nb * d
      ensures r[i] == target[i]
    {
      forall j | 0 <= j < nb * d
        ensures r[i][j] == target[i][j]
      {
        BlockIndexBound(i, j, d, nb);
      }
    }
  }

  /** The linear block number of entry `(i, j)`. */
  function BlockNumber(i: nat, j: nat, d: nat, nb: nat): nat
    requires d > 0
  {
    (i / d) * nb + j / d
  }

  lemma BlockIndexBound(i: nat, j: nat, d: nat, nb: nat)
    requires d > 0 && i < nb * d && j < nb * d
    ensures i / d < nb && j / d < nb
    ensures BlockNumber(i, j, d, nb) < nb * nb
  {
    var p, q := i / d, j / d;
    assert p * d <= i && q * d <= j;
    if p >= nb {
      MulMono(nb, p, d);
    }
    if q >= nb {
      MulMono(nb, q, d);
    }
    MulMono(p, nb - 1, nb);
  }

  /** Write `k` of `AllBlocks` covers entry `(i, j)` exactly when `k` is
      that entry's block number. */
  lemma WriteCovers(i: nat, j: nat, d: nat, nb: nat, k: nat)
    requires d > 0 && k < nb * nb && i < nb * d && j < nb * d
    ensures InBlock(i, j, d, k / nb, k % nb) <==> k == BlockNumber(i, j, d, nb)
  {
    if InBlock(i, j, d, k / nb, k % nb) {
      InBlockNumber(i, j, d, nb, k);
    }
    if k == BlockNumber(i, j, d, nb) {
      NumberInBlock(i, j, d, nb);
    }
  }

  lemma InBlockNumber(i: nat, j: nat, d: nat, nb: nat, k: nat)
    requires d > 0 && k < nb * nb && InBlock(i, j, d, k / nb, k % nb)
    ensures k == BlockNumber(i, j, d, nb)
  {
    BlockOfIndex(i, d, k / nb);
    BlockOfIndex(j, d, k % nb);
    assert k == (k / nb) * nb + k % nb;
  }

  lemma NumberInBlock(i: nat, j: nat, d: nat, nb: nat)
    requires d > 0 && i < nb * d && j < nb * d
    ensures var k := BlockNumber(i, j, d, nb); InBlock(i, j, d, k / nb, k % nb)
  {
    var p, q := i / d, j / d;
    BlockIndexBound(i, j, d, nb);
    DivModUnique(BlockNumber(i, j, d, nb), nb, p, q);
    DivBounds(i, d);
    DivBounds(j, d);
  }

  lemma DivBounds(i: nat, d: nat)
    requires d > 0
    ensures (i / d) * d <= i < (i / d) * d + d
  {
    assert i == (i / d) * d + i % d;
  }

  /** One more write of `AllBlocks`: block `k` of `target` lands on exactly
      the entries whose block number is `k`. */
  lemma WriteStep(prev: Mat, m: Mat, target: Mat, d: nat, nb: nat, k: nat, i: nat, j: nat)
    requires d > 0 && k < nb * nb && i < nb * d && j < nb * d
    requires IsMatrix(m, nb * d, nb * d) && IsMatrix(target, nb * d, nb * d) && IsMatrix(prev, nb * d, nb * d)
    requires prev[i][j] == if BlockNumber(i, j, d, nb) < k then target[i][j] else m[i][j]
    ensures var w := BlockWriteAt(target, d, nb, k);
            WithBlock(prev, w.block, d, w.row, w.col)[i][j]
            == if BlockNumber(i, j, d, nb) < k + 1 then target[i][j] else m[i][j]
  {
    WriteCovers(i, j, d, nb, k);
    var w := BlockWriteAt(target, d, nb, k);
    BlockBounds(k, nb, d);
    if InBlock(i, j, d, w.row, w.col) {
      var a, c := i - w.row * d, j - w.col * d;
      assert w.block[a][c] == target[w.row * d + a][w.col * d + c];
    }
  }

  /** After the first `n` writes of `AllBlocks`, exactly the entries whose
      block number is below `n` hold `target`; the rest still hold `m`. */
  lemma {:induction false} ReconstructPrefix(m: Mat, target: Mat, d: nat, nb: nat, n: nat)
    requires d > 0 && n <= nb * nb
    requires IsMatrix(m, nb * d, nb * d) && IsMatrix(target, nb * d, nb * d)
    ensures forall i, j :: 0 <= i < nb * d && 0 <= j < nb * d ==>
              ApplyWrites(m, AllBlocks(target, d, nb)[..n], d)[i][j]
              == if BlockNumber(i, j, d, nb) < n then target[i][j] else m[i][j]
  {
    var ws := AllBlocks(target, d, nb);
    if n > 0 {
      ReconstructPrefix(m, target, d, nb, n - 1);
      assert ws[..n][..n - 1] == ws[..n - 1];
      var prev := ApplyWrites(m, ws[..n - 1], d);
      var w := ws[n - 1];
      assert w == BlockWriteAt(target, d, nb, n - 1);
      assert ApplyWrites(m, ws[..n], d) == WithBlock(prev, w.block, d, w.row, w.col);
      forall i, j | 0 <= i < nb * d && 0 <= j < nb * d
        ensures WithBlock(prev, w.block, d, w.row, w.col)[i][j]
                == if BlockNumber(i, j, d, nb) < n then target[i][j] else m[i][j]
      {
        WriteStep(prev, m, target, d, nb, n - 1, i, j);
      }
    } else {
      assert ws[..0] == [];
    }
  }
}
