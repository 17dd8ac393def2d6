/** `chunks(l, n)` of floq/parallel/worker.py: the list `l` cut into `n`
    contiguous pieces whose lengths differ by at most one, the longer pieces
    first. With `k, m = divmod(len(l), n)`, piece `i` is the slice
    `l[i*k + min(i, m) : (i+1)*k + min(i+1, m)]`.

    `divmod` by zero raises `ZeroDivisionError` (modelled as `None`); a
    negative `n` leaves `xrange(n)` empty, so the result is the empty list. */
module Worker {
  import opened Seqs

  /** Where piece `i` begins when every piece is `k` long plus one for the
      first `m`; `chunks` takes `k, m = divmod(len(l), n)`. */
  function Start(k: nat, m: nat, i: nat): nat
  {
    if i == 0 then 0 else Start(k, m, i - 1) + k + (if i - 1 < m then 1 else 0)
  }

  /** The closed form the source slices with: `i*k + min(i, m)`. */
  lemma {:induction false} StartClosedForm(k: nat, m: nat, i: nat)
    ensures Start(k, m, i) == i * k + Min(i, m)
  {
    if i > 0 {
      StartClosedForm(k, m, i - 1);
      assert i * k == (i - 1) * k + k;
    }
  }

  lemma {:induction false} StartMonotone(k: nat, m: nat, i: nat, j: nat)
    requires i <= j
    ensures Start(k, m, i) <= Start(k, m, j)
  {
    if i < j {
      StartMonotone(k, m, i, j - 1);
    }
  }

  /** The last piece ends at `len(l)`. */
  lemma StartLast(len: nat, n: nat)
    requires 0 < n
    ensures Start(len / n, len % n, n) == len
  {
    StartClosedForm(len / n, len % n, n);
    assert n * (len / n) + len % n == len;
  }

  /** The `n` slices of `l` between consecutive starts. */
  function Pieces<T>(l: seq<T>, k: nat, m: nat, n: nat): (r: seq<seq<T>>)
    requires Start(k, m, n) <= |l|
    ensures |r| == n
  {
    seq(n, i requires 0 <= i < n =>
      StartMonotone(k, m, i + 1, n);
      StartMonotone(k, m, i, i + 1);
      l[Start(k, m, i)..Start(k, m, i + 1)])
  }

  function Chunks<T>(l: seq<T>, n: int): (r: Option<seq<seq<T>>>)
    ensures r.None? <==> n == 0
    ensures n < 0 ==> r == Some([])
    ensures n > 0 ==> r.Some? && |r.value| == n
  {
    if n == 0 then None
    else if n < 0 then Some([])
    else
      StartLast(|l|, n);
      Some(Pieces(l, |l| / n, |l| % n, n))
  }

  /** Piece `i` is the slice between its two starts. */
  lemma PieceIs<T>(l: seq<T>, k: nat, m: nat, n: nat, i: nat)
    requires Start(k, m, n) <= |l| && i < n
    ensures Start(k, m, i) <= Start(k, m, i + 1) <= |l|
    ensures Pieces(l, k, m, n)[i] == l[Start(k, m, i)..Start(k, m, i + 1)]
  {
    StartMonotone(k, m, i + 1, n);
    StartMonotone(k, m, i, i + 1);
  }

  /** Piece `i` of `chunks(l, n)` is the slice between its two starts. */
  lemma ChunkIs<T>(l: seq<T>, n: int, i: int)
    requires n > 0 && 0 <= i < n
    ensures Start(|l| / n, |l| % n, i) <= Start(|l| / n, |l| % n, i + 1) <= |l|
    ensures Chunks(l, n).value[i] == l[Start(|l| / n, |l| % n, i)..Start(|l| / n, |l| % n, i + 1)]
  {
    StartLast(|l|, n);
    PieceIs(l, |l| / n, |l| % n, n, i);
  }

  /** The first `m` pieces have `k + 1` elements and the rest `k`. */
  lemma ChunkLengths<T>(l: seq<T>, n: int, i: int)
    requires n > 0 && 0 <= i < n
    ensures |Chunks(l, n).value[i]| == if i < |l| % n then |l| / n + 1 else |l| / n
  {
    ChunkIs(l, n, i);
  }

  /** No two pieces differ in length by more than one. */
  lemma ChunksBalanced<T>(l: seq<T>, n: int, i: int, j: int)
    requires n > 0 && 0 <= i < n && 0 <= j < n
    ensures -1 <= |Chunks(l, n).value[i]| - |Chunks(l, n).value[j]| <= 1
    ensures i <= j ==> |Chunks(l, n).value[i]| >= |Chunks(l, n).value[j]|
  {
    ChunkLengths(l, n, i);
    ChunkLengths(l, n, j);
  }

  /** Piece `i` begins where piece `i - 1` ends. */
  lemma ChunksContiguous<T>(l: seq<T>, n: int, i: int)
    requires n > 0 && 0 < i < n
    ensures Start(|l| / n, |l| % n, i - 1) <= Start(|l| / n, |l| % n, i) <= Start(|l| / n, |l| % n, i + 1) <= |l|
    ensures var pieces := Chunks(l, n).value;
            pieces[i - 1] + pieces[i] == l[Start(|l| / n, |l| % n, i - 1)..Start(|l| / n, |l| % n, i + 1)]
  {
    ChunkIs(l, n, i - 1);
    ChunkIs(l, n, i);
    var a, b, c := Start(|l| / n, |l| % n, i - 1), Start(|l| / n, |l| % n, i), Start(|l| / n, |l| % n, i + 1);
    assert l[a..c] == l[a..b] + l[b..c];
  }

  /** The first `i` slices, concatenated, are the prefix of `l` up to where
      slice `i` begins. */
  lemma {:induction false} PiecesPrefix<T>(l: seq<T>, k: nat, m: nat, n: nat, i: nat)
    requires Start(k, m, n) <= |l| && i <= n
    ensures Start(k, m, i) <= |l|
    ensures Flatten(Pieces(l, k, m, n)[..i]) == l[..Start(k, m, i)]
  {
    StartMonotone(k, m, i, n);
    if i > 0 {
      PiecesPrefix(l, k, m, n, i - 1);
      PieceIs(l, k, m, n, i - 1);
      var pieces := Pieces(l, k, m, n);
      var a, b := Start(k, m, i - 1), Start(k, m, i);
      assert pieces[..i][..i - 1] == pieces[..i - 1];
      assert l[..b] == l[..a] + l[a..b];
    }
  }

  /** The first `i` pieces of `chunks(l, n)`, concatenated, are the prefix of
      `l` up to where piece `i` begins. */
  lemma FlattenPrefix<T>(l: seq<T>, n: int, i: nat)
    requires n > 0 && i <= n
    ensures Start(|l| / n, |l| % n, i) <= |l|
    ensures Flatten(Chunks(l, n).value[..i]) == l[..Start(|l| / n, |l| % n, i)]
  {
    StartLast(|l|, n);
    PiecesPrefix(l, |l| / n, |l| % n, n, i);
  }

  /** Concatenating the pieces in order gives back `l`. */
  lemma ChunksFlatten<T>(l: seq<T>, n: int)
    requires n > 0
    ensures Flatten(Chunks(l, n).value) == l
  {
    FlattenPrefix(l, n, n);
    StartLast(|l|, n);
    assert Chunks(l, n).value[..n] == Chunks(l, n).value;
  }

  /** `chunks(range(10), 3)` is `[[0, 1, 2, 3], [4, 5, 6], [7, 8, 9]]`. */
  lemma ChunksExample()
    ensures Chunks([0, 1, 2, 3, 4, 5, 6, 7, 8, 9], 3) == Some([[0, 1, 2, 3], [4, 5, 6], [7, 8, 9]])
  {
    var l := [0, 1, 2, 3, 4, 5, 6, 7, 8, 9];
    assert Start(3, 1, 0) == 0 && Start(3, 1, 1) == 4 && Start(3, 1, 2) == 7 && Start(3, 1, 3) == 10;
    var r := Chunks(l, 3).value;
    assert r[0] == l[0..4] == [0, 1, 2, 3];
    assert r[1] == l[4..7] == [4, 5, 6];
    assert r[2] == l[7..10] == [7, 8, 9];
    assert r == [[0, 1, 2, 3], [4, 5, 6], [7, 8, 9]];
  }
}
