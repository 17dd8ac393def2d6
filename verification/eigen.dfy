/** Bookkeeping around the eigensystem of K (floq/core/evolution.py):
    trimming a dense eigensystem to the `2*dim` values around zero, reducing
    eigenvalues modulo `omega` to the `dim` distinct quasi-energies, and
    looking up the eigenvector that belongs to each of them.

    Eigen-solving itself is not modelled: eigenvalues arrive as a sequence
    of reals and eigenvectors as a sequence of vectors (column `q` of the
    solver's matrix is `vecs[q]`).  Rounding to `decimals` places is a
    parameter `rnd`, about which nothing is assumed unless a lemma says so. */
module Eigen {
  import opened Seqs
  import opened Complex

  datatype Result<T> = Success(value: T) | Failure(error: Error)

  datatype Error =
    | EigenvalueNumberError   // raised by `find_unique_vals`
    | IndexError              // `np.where(...)[0][0]` on an empty match
    | SplitError              // `np.split` into sections that do not divide the length

  // ---------------------------------------------------------------------
  // Sorting by a real key (the `argsort` / `np.sort` steps).

  ghost predicate SortedBy<T>(s: seq<T>, key: T -> real)
  {
    forall i, j :: 0 <= i < j < |s| ==> key(s[i]) <= key(s[j])
  }

  predicate StrictlyIncreasing(s: seq<real>)
  {
    forall i, j :: 0 <= i < j < |s| ==> s[i] < s[j]
  }

  function Insert<T>(s: seq<T>, x: T, key: T -> real): (r: seq<T>)
    ensures multiset(r) == multiset(s) + multiset{x}
    ensures |r| == |s| + 1
  {
    if |s| == 0 then [x]
    else if key(x) <= key(s[0]) then [x] + s
    else
      assert s == [s[0]] + s[1..];
      [s[0]] + Insert(s[1..], x, key)
  }

  /** Inserting into a sorted sequence keeps it sorted. */
  lemma {:induction false} InsertSorted<T>(s: seq<T>, x: T, key: T -> real)
    requires SortedBy(s, key)
    ensures SortedBy(Insert(s, x, key), key)
  {
    if |s| > 0 && key(x) > key(s[0]) {
      var rest := Insert(s[1..], x, key);
      InsertSorted(s[1..], x, key);
      assert rest[0] == x || rest[0] == s[1];
      assert forall j :: 0 <= j < |rest| ==> key(s[0]) <= key(rest[j]) by {
        forall j | 0 <= j < |rest| ensures key(s[0]) <= key(rest[j]) {
          assert key(rest[0]) <= key(rest[j]);
        }
      }
    }
  }

  /** Insertion sort: a permutation of `s` ordered by `key`. */
  function Sort<T>(s: seq<T>, key: T -> real): (r: seq<T>)
    ensures multiset(r) == multiset(s) && |r| == |s|
    ensures SortedBy(r, key)
  {
    if |s| == 0 then []
    else
      assert s == s[..|s| - 1] + [s[|s| - 1]];
      var sorted := Sort(s[..|s| - 1], key);
      InsertSorted(sorted, s[|s| - 1], key);
      Insert(sorted, s[|s| - 1], key)
  }

  lemma SortKeepsElements<T>(s: seq<T>, key: T -> real)
    ensures forall y :: y in Sort(s, key) <==> y in s
  {
    var r := Sort(s, key);
    forall y
      ensures y in r <==> y in s
    {
      assert y in r <==> y in multiset(r);
      assert y in s <==> y in multiset(s);
    }
  }

  function Id(x: real): real { x }

  /** `np.unique` on an already sorted sequence: drop repeated neighbours. */
  function Dedup(s: seq<real>): (r: seq<real>)
    ensures forall x :: x in r <==> x in s
    ensures |s| > 0 ==> |r| > 0 && r[0] == s[0]
    ensures SortedBy(s, Id) ==> StrictlyIncreasing(r)
  {
    if |s| <= 1 then s
    else if s[0] == s[1] then
      assert s == [s[0]] + s[1..];
      Dedup(s[1..])
    else
      var rest := Dedup(s[1..]);
      assert s == [s[0]] + s[1..];
      assert SortedBy(s, Id) ==> SortedBy(s[1..], Id) && s[0] < rest[0];
      [s[0]] + rest
  }

  /** `np.unique`: the distinct values of `xs`, in increasing order. */
  function Unique(xs: seq<real>): (r: seq<real>)
    ensures forall x :: x in r <==> x in xs
    ensures StrictlyIncreasing(r)
  {
    var sorted := Sort(xs, Id);
    assert forall x :: x in sorted <==> x in xs by {
      forall x ensures x in sorted <==> x in xs {
        assert x in sorted <==> x in multiset(sorted);
      }
    }
    Dedup(sorted)
  }

  /** A strictly increasing sequence has as many elements as its set. */
  lemma {:induction false} DistinctCount(s: seq<real>)
    requires StrictlyIncreasing(s)
    ensures |set x | x in s| == |s|
  {
    if |s| > 0 {
      DistinctCount(s[1..]);
      SetOfCons(s);
      forall i | 0 <= i < |s[1..]| ensures s[1..][i] != s[0] {
        assert s[1..][i] == s[i + 1];
      }
    }
  }

  /** The values of a non-empty sequence are its first one and the rest's. */
  lemma SetOfCons(s: seq<real>)
    requires |s| > 0
    ensures (set x | x in s) == {s[0]} + (set x | x in s[1..])
  {
    forall x | x in s ensures x == s[0] || x in s[1..] {
      var i :| 0 <= i < |s| && s[i] == x;
      if i > 0 {
        assert s[1..][i - 1] == x;
      }
    }
  }

  // ---------------------------------------------------------------------
  // `trim_eigensystem`


  /** The kept window `[left, right)` of the sorted eigenvalues: a valid
      slice of `2*dim` values, or all of them when there are fewer; when it
      is full it starts `dim` below the middle, and its width is the number
      of values the sparse solver is asked for (`min(2*dim, k_dim)`). */
  function TrimWindow(kDim: nat, dim: nat): (w: (int, int))
    ensures 0 <= w.0 <= w.1 <= kDim
    ensures w.1 - w.0 == Min(2 * dim, kDim)
    ensures 2 * dim <= kDim ==> w.0 == kDim / 2 - dim
    ensures 2 * dim > kDim ==> w == (0, kDim)
  {
    var middle := kDim / 2;
    var left := Max(0, middle - dim);
    var right := Min(kDim, left + 2 * dim);
    (left, right)
  }

  function Zip<A, B>(a: seq<A>, b: seq<B>): (z: seq<(A, B)>)
    requires |a| == |b|
    ensures |z| == |a|
  {
    seq(|a|, i requires 0 <= i < |a| => (a[i], b[i]))
  }

  function Key(pr: (real, Vec)): real { pr.0 }

  function Firsts(ps: seq<(real, Vec)>): (r: seq<real>)
    ensures |r| == |ps|
  {
    seq(|ps|, q requires 0 <= q < |ps| => ps[q].0)
  }

  function Seconds(ps: seq<(real, Vec)>): (r: seq<Vec>)
    ensures |r| == |ps|
  {
    seq(|ps|, q requires 0 <= q < |ps| => ps[q].1)
  }

  lemma ZipUnzip(ps: seq<(real, Vec)>)
    ensures Zip(Firsts(ps), Seconds(ps)) == ps
  {
  }

  /** A window of a sequence takes no element more often than the whole. */
  lemma SliceSubMultiset<T>(s: seq<T>, left: int, right: int)
    requires 0 <= left <= right <= |s|
    ensures multiset(s[left..right]) <= multiset(s)
  {
    assert s == s[..left] + s[left..right] + s[right..];
  }

  /** The eigenvalues of a window of pairs sorted by eigenvalue are sorted. */
  lemma WindowSorted(sorted: seq<(real, Vec)>, left: int, right: int)
    requires 0 <= left <= right <= |sorted|
    requires SortedBy(sorted, Key)
    ensures SortedBy(Firsts(sorted[left..right]), Id)
  {
    var keys := Firsts(sorted[left..right]);
    forall i, j | 0 <= i < j < |keys| ensures keys[i] <= keys[j] {
      assert keys[i] == Key(sorted[left + i]) && keys[j] == Key(sorted[left + j]);
    }
  }

  /** `x` is below `y` (`strict`) or at most `y`. */
  function Below(x: real, y: real, strict: bool): bool
  {
    if strict then x < y else x <= y
  }

  /** How many elements of `s` have a key below `y` (or at most `y`). */
  function CountBelow<T>(s: seq<T>, key: T -> real, y: real, strict: bool): (n: nat)
    ensures n <= |s|
  {
    if |s| == 0 then 0
    else CountBelow(s[..|s| - 1], key, y, strict) + (if Below(key(s[|s| - 1]), y, strict) then 1 else 0)
  }

  lemma {:induction false} CountAppend<T>(a: seq<T>, b: seq<T>, key: T -> real, y: real, strict: bool)
    ensures CountBelow(a + b, key, y, strict) == CountBelow(a, key, y, strict) + CountBelow(b, key, y, strict)
    decreases |b|
  {
    if |b| > 0 {
      CountAppend(a, b[..|b| - 1], key, y, strict);
      assert (a + b)[..|a + b| - 1] == a + b[..|b| - 1];
    } else {
      assert a + b == a;
    }
  }

  /** Taking position `i` out of a sequence takes one copy of its element
      out of the multiset. */
  lemma RemoveAt<T>(b: seq<T>, i: int)
    requires 0 <= i < |b|
    ensures multiset(b[..i] + b[i + 1..]) == multiset(b) - multiset{b[i]}
  {
    assert b == b[..i] + [b[i]] + b[i + 1..];
    assert multiset(b) == multiset(b[..i]) + multiset{b[i]} + multiset(b[i + 1..]);
  }

  /** Taking position `i` out loses exactly that element from the count. */
  lemma CountRemoveAt<T>(b: seq<T>, i: int, key: T -> real, y: real, strict: bool)
    requires 0 <= i < |b|
    ensures CountBelow(b, key, y, strict) ==
            CountBelow(b[..i] + b[i + 1..], key, y, strict) + (if Below(key(b[i]), y, strict) then 1 else 0)
  {
    assert b == b[..i] + [b[i]] + b[i + 1..];
    CountAppend(b[..i], [b[i]], key, y, strict);
    CountAppend(b[..i] + [b[i]], b[i + 1..], key, y, strict);
    CountAppend(b[..i], b[i + 1..], key, y, strict);
  }

  /** Counting does not depend on the order of the elements. */
  lemma {:induction false} CountPerm<T>(a: seq<T>, b: seq<T>, key: T -> real, y: real, strict: bool)
    requires multiset(a) == multiset(b)
    ensures CountBelow(a, key, y, strict) == CountBelow(b, key, y, strict)
    decreases |a|
  {
    if |a| > 0 {
      var n := |a| - 1;
      assert a == a[..n] + [a[n]];
      assert multiset(a[..n]) == multiset(a) - multiset{a[n]};
      assert a[n] in multiset(b);
      var i :| 0 <= i < |b| && b[i] == a[n];
      RemoveAt(b, i);
      CountPerm(a[..n], b[..i] + b[i + 1..], key, y, strict);
      CountRemoveAt(b, i, key, y, strict);
    } else {
      assert |b| == |multiset(b)| == 0;
    }
  }

  /** When every element is below `y`, all are counted. */
  lemma {:induction false} CountAll<T>(s: seq<T>, key: T -> real, y: real, strict: bool)
    requires forall i :: 0 <= i < |s| ==> Below(key(s[i]), y, strict)
    ensures CountBelow(s, key, y, strict) == |s|
  {
    if |s| > 0 {
      CountAll(s[..|s| - 1], key, y, strict);
    }
  }

  /** When no element is below `y`, none is counted. */
  lemma {:induction false} CountNone<T>(s: seq<T>, key: T -> real, y: real, strict: bool)
    requires forall i :: 0 <= i < |s| ==> !Below(key(s[i]), y, strict)
    ensures CountBelow(s, key, y, strict) == 0
  {
    if |s| > 0 {
      CountNone(s[..|s| - 1], key, y, strict);
    }
  }

  /** In a sorted sequence the element at position `j` has at most `j`
      elements strictly below it and more than `j` at or below it. */
  lemma CountSorted<T>(s: seq<T>, key: T -> real, j: int)
    requires SortedBy(s, key) && 0 <= j < |s|
    ensures CountBelow(s, key, key(s[j]), true) <= j < CountBelow(s, key, key(s[j]), false)
  {
    CountSortedBelow(s, key, j);
    CountSortedAtMost(s, key, j);
  }

  lemma CountSortedBelow<T>(s: seq<T>, key: T -> real, j: int)
    requires SortedBy(s, key) && 0 <= j < |s|
    ensures CountBelow(s, key, key(s[j]), true) <= j
  {
    var y := key(s[j]);
    var tail := s[j..];
    assert s == s[..j] + tail;
    forall i | 0 <= i < |tail| ensures !Below(key(tail[i]), y, true) {
      assert tail[i] == s[j + i];
    }
    CountAppend(s[..j], tail, key, y, true);
    CountNone(tail, key, y, true);
  }

  lemma CountSortedAtMost<T>(s: seq<T>, key: T -> real, j: int)
    requires SortedBy(s, key) && 0 <= j < |s|
    ensures j < CountBelow(s, key, key(s[j]), false)
  {
    var head := s[..j + 1];
    assert s == head + s[j + 1..];
    SortedPrefixCount(s, key, j);
    CountAppend(head, s[j + 1..], key, key(s[j]), false);
  }

  /** In a sorted sequence every element up to position `j` is at most `s[j]`. */
  lemma SortedPrefixCount<T>(s: seq<T>, key: T -> real, j: int)
    requires SortedBy(s, key) && 0 <= j < |s|
    ensures CountBelow(s[..j + 1], key, key(s[j]), false) == j + 1
  {
    var head := s[..j + 1];
    forall i | 0 <= i < |head| ensures Below(key(head[i]), key(s[j]), false) {
      assert head[i] == s[i];
      if i < j {
        assert key(s[i]) <= key(s[j]);
      }
    }
    CountAll(head, key, key(s[j]), false);
  }

  /** Counting the pairs by eigenvalue counts the eigenvalues. */
  lemma {:induction false} CountZip(vals: seq<real>, vecs: seq<Vec>, y: real, strict: bool)
    requires |vals| == |vecs|
    ensures CountBelow(Zip(vals, vecs), Key, y, strict) == CountBelow(vals, Id, y, strict)
  {
    if |vals| > 0 {
      var n := |vals| - 1;
      assert Zip(vals, vecs)[..n] == Zip(vals[..n], vecs[..n]);
      CountZip(vals[..n], vecs[..n], y, strict);
    }
  }

  /** The eigenvalue at position `j` of the sorted pairs has at most `j`
      eigenvalues strictly below it and more than `j` at or below it. */
  lemma SortedRank(vals: seq<real>, vecs: seq<Vec>, sorted: seq<(real, Vec)>, j: int)
    requires |vals| == |vecs| && multiset(sorted) == multiset(Zip(vals, vecs))
    requires SortedBy(sorted, Key) && 0 <= j < |sorted|
    ensures CountBelow(vals, Id, Key(sorted[j]), true) <= j < CountBelow(vals, Id, Key(sorted[j]), false)
  {
    var y := Key(sorted[j]);
    CountSorted(sorted, Key, j);
    CountPerm(sorted, Zip(vals, vecs), Key, y, true);
    CountPerm(sorted, Zip(vals, vecs), Key, y, false);
    CountZip(vals, vecs, y, true);
    CountZip(vals, vecs, y, false);
  }

  /** `trim_eigensystem`: sort the eigenpairs by eigenvalue and keep the
      window.  Eigenvalues are taken as reals (the engine keeps `vals.real`).
      The result is the window of the sorted pairs: sorted, every kept pair
      one of the input pairs (none more often than in the input), and the
      value at position `q` is the `(left + q)`-th smallest eigenvalue. */
  function TrimEigensystem(vals: seq<real>, vecs: seq<Vec>, kDim: nat, dim: nat): (r: (seq<real>, seq<Vec>))
    requires |vals| == kDim && |vecs| == kDim
    ensures |r.0| == |r.1| == Min(2 * dim, kDim)
    ensures Zip(r.0, r.1) == Sort(Zip(vals, vecs), Key)[TrimWindow(kDim, dim).0..TrimWindow(kDim, dim).1]
    ensures SortedBy(r.0, Id)
    ensures multiset(Zip(r.0, r.1)) <= multiset(Zip(vals, vecs))
    ensures forall q :: 0 <= q < |r.0| ==>
              CountBelow(vals, Id, r.0[q], true) <= TrimWindow(kDim, dim).0 + q < CountBelow(vals, Id, r.0[q], false)
  {
    var sorted := Sort(Zip(vals, vecs), Key);
    var left, right := TrimWindow(kDim, dim).0, TrimWindow(kDim, dim).1;
    SliceSubMultiset(sorted, left, right);
    WindowSorted(sorted, left, right);
    ZipUnzip(sorted[left..right]);
    WindowRanks(vals, vecs, sorted, left, right);
    (Firsts(sorted[left..right]), Seconds(sorted[left..right]))
  }

  /** Every value of the window `[left, right)` of the sorted pairs has its
      position in the window offset by `left` as its rank among `vals`. */
  lemma WindowRanks(vals: seq<real>, vecs: seq<Vec>, sorted: seq<(real, Vec)>, left: int, right: int)
    requires |vals| == |vecs| && multiset(sorted) == multiset(Zip(vals, vecs))
    requires SortedBy(sorted, Key) && 0 <= left <= right <= |sorted|
    ensures forall q :: 0 <= q < right - left ==>
              CountBelow(vals, Id, Firsts(sorted[left..right])[q], true) <= left + q <
              CountBelow(vals, Id, Firsts(sorted[left..right])[q], false)
  {
    forall q | 0 <= q < right - left
      ensures CountBelow(vals, Id, Firsts(sorted[left..right])[q], true) <= left + q <
              CountBelow(vals, Id, Firsts(sorted[left..right])[q], false)
    {
      WindowRankAt(vals, vecs, sorted, left, right, q);
    }
  }

  lemma WindowRankAt(vals: seq<real>, vecs: seq<Vec>, sorted: seq<(real, Vec)>, left: int, right: int, q: int)
    requires |vals| == |vecs| && multiset(sorted) == multiset(Zip(vals, vecs))
    requires SortedBy(sorted, Key) && 0 <= left <= right <= |sorted| && 0 <= q < right - left
    ensures CountBelow(vals, Id, Firsts(sorted[left..right])[q], true) <= left + q <
            CountBelow(vals, Id, Firsts(sorted[left..right])[q], false)
  {
    var y := Firsts(sorted[left..right])[q];
    assert y == Key(sorted[left + q]);
    SortedRank(vals, vecs, sorted, left + q);
  }

  // ---------------------------------------------------------------------
  // `find_unique_vals`

  /** `np.mod(v, w)`: the floored remainder, with the sign of `w`. */
  function RealMod(v: real, w: real): (r: real)
    requires w != 0.0
    ensures w > 0.0 ==> 0.0 <= r < w
    ensures w < 0.0 ==> w < r <= 0.0
    ensures v - r == (v / w).Floor as real * w
  {
    var f := (v / w).Floor as real;
    RemainderRange(v, w, v / w, f);
    v - w * f
  }

  /** Taking `floor(v/w)` whole `w`s from `v` leaves a remainder between 0 and `w`. */
  lemma RemainderRange(v: real, w: real, q: real, f: real)
    requires w != 0.0 && q == v / w && f <= q < f + 1.0
    ensures w > 0.0 ==> 0.0 <= v - w * f < w
    ensures w < 0.0 ==> w < v - w * f <= 0.0
  {
    var d := q - f;
    assert v == w * q;
    assert v - w * f == w * d by {
      assert w * q == w * (f + d) == w * f + w * d;
    }
    ScaledFraction(w, d);
  }


  /** A fraction in `[0, 1)` of `w` lies between 0 and `w`, never reaching `w`. */
  lemma ScaledFraction(w: real, d: real)
    requires w != 0.0 && 0.0 <= d < 1.0
    ensures w > 0.0 ==> 0.0 <= w * d < w
    ensures w < 0.0 ==> w < w * d <= 0.0
  {
    assert w - w * d == w * (1.0 - d);
    if w > 0.0 {
      assert w * (1.0 - d) > 0.0 && w * d >= 0.0;
    } else {
      assert w * (1.0 - d) < 0.0 && w * d <= 0.0;
    }
  }


  /** The rounded residues `mod_vals`. */
  function Residues(vals: seq<real>, omega: real, rnd: real -> real): (m: seq<real>)
    requires omega != 0.0
    ensures |m| == |vals|
  {
    seq(|vals|, i requires 0 <= i < |vals| => rnd(RealMod(vals[i], omega)))
  }

  /** Residues above `omega/2` are moved down by one `omega` (and rounded again). */
  function Fold(v: real, omega: real, rnd: real -> real): real
  {
    if v > omega / 2.0 then rnd(v - omega) else v
  }

  /** `y` is the folded residue of one of the eigenvalues. */
  ghost predicate FoldedResidue(y: real, vals: seq<real>, omega: real, rnd: real -> real)
    requires omega != 0.0
  {
    exists i :: 0 <= i < |vals| && y == Fold(rnd(RealMod(vals[i], omega)), omega, rnd)
  }

  /** The distinct residues, folded towards zero: the candidates that
      `find_unique_vals` counts and sorts. */
  function Candidates(vals: seq<real>, omega: real, rnd: real -> real): (c: seq<real>)
    requires omega != 0.0
    ensures |c| == |set x | x in Residues(vals, omega, rnd)|
    ensures forall y :: y in c ==> FoldedResidue(y, vals, omega, rnd)
    ensures forall i :: 0 <= i < |vals| ==> Fold(rnd(RealMod(vals[i], omega)), omega, rnd) in c
  {
    var unique := Unique(Residues(vals, omega, rnd));
    CountUnique(Residues(vals, omega, rnd));
    var c := seq(|unique|, i requires 0 <= i < |unique| => Fold(unique[i], omega, rnd));
    FoldedOrigin(vals, omega, rnd, unique, c);
    FoldedComplete(vals, omega, rnd, unique, c);
    c
  }

  lemma CountUnique(xs: seq<real>)
    ensures |Unique(xs)| == |set x | x in xs|
  {
    var u := Unique(xs);
    DistinctCount(u);
    assert (set x | x in u) == (set x | x in xs);
  }

  lemma FoldedOrigin(vals: seq<real>, omega: real, rnd: real -> real, unique: seq<real>, c: seq<real>)
    requires omega != 0.0
    requires forall x :: x in unique ==> x in Residues(vals, omega, rnd)
    requires |c| == |unique| && forall q :: 0 <= q < |c| ==> c[q] == Fold(unique[q], omega, rnd)
    ensures forall y :: y in c ==> FoldedResidue(y, vals, omega, rnd)
  {
    var m := Residues(vals, omega, rnd);
    forall y | y in c
      ensures FoldedResidue(y, vals, omega, rnd)
    {
      var q :| 0 <= q < |c| && c[q] == y;
      assert unique[q] in m;
      var i :| 0 <= i < |m| && m[i] == unique[q];
      assert y == Fold(rnd(RealMod(vals[i], omega)), omega, rnd);
    }
  }

  lemma FoldedComplete(vals: seq<real>, omega: real, rnd: real -> real, unique: seq<real>, c: seq<real>)
    requires omega != 0.0
    requires forall x :: x in Residues(vals, omega, rnd) ==> x in unique
    requires |c| == |unique| && forall q :: 0 <= q < |c| ==> c[q] == Fold(unique[q], omega, rnd)
    ensures forall i :: 0 <= i < |vals| ==> Fold(rnd(RealMod(vals[i], omega)), omega, rnd) in c
  {
    var m := Residues(vals, omega, rnd);
    forall i | 0 <= i < |vals|
      ensures Fold(rnd(RealMod(vals[i], omega)), omega, rnd) in c
    {
      assert m[i] in m;
      var q :| 0 <= q < |unique| && unique[q] == m[i];
      assert c[q] == Fold(m[i], omega, rnd);
    }
  }

  /** `find_unique_vals`: fails with `EigenvalueNumberError` exactly when the
      number of distinct rounded residues is not `dim`; otherwise returns
      `dim` sorted values, each a folded residue of some eigenvalue, and the
      folded residue of every eigenvalue among them. */
  function FindUniqueVals(vals: seq<real>, omega: real, dim: nat, rnd: real -> real): (r: Result<seq<real>>)
    requires omega != 0.0
    ensures r.Failure? <==> |set x | x in Residues(vals, omega, rnd)| != dim
    ensures r.Failure? ==> r.error == EigenvalueNumberError
    ensures r.Success? ==> |r.value| == dim && SortedBy(r.value, Id)
    ensures r.Success? ==> forall q :: 0 <= q < dim ==> FoldedResidue(r.value[q], vals, omega, rnd)
    ensures r.Success? ==> forall i :: 0 <= i < |vals| ==> Fold(rnd(RealMod(vals[i], omega)), omega, rnd) in r.value
  {
    var c := Candidates(vals, omega, rnd);
    if |c| != dim then Failure(EigenvalueNumberError)
    else
      var sorted := Sort(c, Id);
      SortKeepsElements(c, Id);
      Success(sorted)
  }

  /** Adding whole multiples of `omega` to the eigenvalues does not change the
      quasi-energies found. */
  lemma ShiftInvariant(vals: seq<real>, ks: seq<int>, omega: real, dim: nat, rnd: real -> real)
    requires omega != 0.0 && |ks| == |vals|
    ensures FindUniqueVals(seq(|vals|, i requires 0 <= i < |vals| => vals[i] + (ks[i] as real) * omega), omega, dim, rnd)
            == FindUniqueVals(vals, omega, dim, rnd)
  {
    var shifted := seq(|vals|, i requires 0 <= i < |vals| => vals[i] + (ks[i] as real) * omega);
    forall i | 0 <= i < |vals|
      ensures RealMod(shifted[i], omega) == RealMod(vals[i], omega)
    {
      var v, k := vals[i], ks[i];
      assert shifted[i] == v + (k as real) * omega;
      ModPeriodic(v, k, omega);
    }
    assert Residues(shifted, omega, rnd) == Residues(vals, omega, rnd);
  }

  lemma ModPeriodic(v: real, k: int, w: real)
    requires w != 0.0
    ensures RealMod(v + (k as real) * w, w) == RealMod(v, w)
  {
    var q, q2 := v / w, (v + (k as real) * w) / w;
    assert q * w == v && q2 * w == v + (k as real) * w;
    assert (q2 - q - k as real) * w == 0.0;
    assert q2 == q + k as real;
    assert q2.Floor == q.Floor + k;
  }

  /** With exact rounding and `omega > 0` the quasi-energies are distinct,
      strictly increasing and lie in `(-omega/2, omega/2]`. */
  lemma ExactQuasiEnergies(vals: seq<real>, omega: real, dim: nat, rnd: real -> real)
    requires omega > 0.0
    requires forall x :: rnd(x) == x
    requires FindUniqueVals(vals, omega, dim, rnd).Success?
    ensures var u := FindUniqueVals(vals, omega, dim, rnd).value;
            StrictlyIncreasing(u) && forall q :: 0 <= q < |u| ==> -omega / 2.0 < u[q] <= omega / 2.0
  {
    var c := Candidates(vals, omega, rnd);
    var u := FindUniqueVals(vals, omega, dim, rnd).value;
    assert u == Sort(c, Id);
    ExactCandidates(vals, omega, rnd);
    forall q | 0 <= q < |u|
      ensures -omega / 2.0 < u[q] <= omega / 2.0
    {
      assert u[q] in multiset(u);
    }
    SortedDistinct(c, u);
  }

  /** With exact rounding the residues lie in `[0, omega)` and folding maps
      them one-to-one into `(-omega/2, omega/2]`. */
  lemma ExactCandidates(vals: seq<real>, omega: real, rnd: real -> real)
    requires omega > 0.0
    requires forall x :: rnd(x) == x
    ensures var c := Candidates(vals, omega, rnd);
            (forall i, j :: 0 <= i < j < |c| ==> c[i] != c[j]) &&
            (forall y :: y in c ==> -omega / 2.0 < y <= omega / 2.0)
  {
    var m := Residues(vals, omega, rnd);
    var unique := Unique(m);
    var c := Candidates(vals, omega, rnd);
    assert |c| == |unique| && forall i :: 0 <= i < |c| ==> c[i] == Fold(unique[i], omega, rnd);
    ExactResidues(vals, omega, rnd);
    FoldAllExact(unique, c, omega, rnd);
  }

  /** Folding increasing values of `[0, omega)` one by one, with exact
      rounding, gives distinct values of `(-omega/2, omega/2]`. */
  lemma FoldAllExact(unique: seq<real>, c: seq<real>, omega: real, rnd: real -> real)
    requires omega > 0.0
    requires forall x :: rnd(x) == x
    requires StrictlyIncreasing(unique) && forall i :: 0 <= i < |unique| ==> 0.0 <= unique[i] < omega
    requires |c| == |unique| && forall i :: 0 <= i < |c| ==> c[i] == Fold(unique[i], omega, rnd)
    ensures forall i, j :: 0 <= i < j < |c| ==> c[i] != c[j]
    ensures forall y :: y in c ==> -omega / 2.0 < y <= omega / 2.0
  {
    forall i, j | 0 <= i < j < |c|
      ensures c[i] != c[j]
    {
      FoldExact(unique[i], unique[j], omega, rnd);
    }
    forall y | y in c
      ensures -omega / 2.0 < y <= omega / 2.0
    {
      var i :| 0 <= i < |c| && c[i] == y;
      FoldExact(unique[i], unique[i], omega, rnd);
    }
  }

  /** With exact rounding every distinct residue lies in `[0, omega)`. */
  lemma ExactResidues(vals: seq<real>, omega: real, rnd: real -> real)
    requires omega > 0.0
    requires forall x :: rnd(x) == x
    ensures var unique := Unique(Residues(vals, omega, rnd));
            forall i :: 0 <= i < |unique| ==> 0.0 <= unique[i] < omega
  {
    var m := Residues(vals, omega, rnd);
    var unique := Unique(m);
    forall i | 0 <= i < |unique|
      ensures 0.0 <= unique[i] < omega
    {
      assert unique[i] in m;
      var p :| 0 <= p < |m| && m[p] == unique[i];
      assert m[p] == rnd(RealMod(vals[p], omega));
    }
  }

  lemma FoldExact(a: real, b: real, omega: real, rnd: real -> real)
    requires omega > 0.0 && 0.0 <= a <= b < omega
    requires forall x :: rnd(x) == x
    ensures -omega / 2.0 < Fold(a, omega, rnd) <= omega / 2.0
    ensures a < b ==> Fold(a, omega, rnd) != Fold(b, omega, rnd)
  {
    assert rnd(a - omega) == a - omega && rnd(b - omega) == b - omega;
  }

  /** Sorting a sequence without repeated values gives a strictly increasing one. */
  lemma SortedDistinct(s: seq<real>, r: seq<real>)
    requires forall i, j :: 0 <= i < j < |s| ==> s[i] != s[j]
    requires multiset(r) == multiset(s) && SortedBy(r, Id)
    ensures StrictlyIncreasing(r)
  {
    forall i, j | 0 <= i < j < |r|
      ensures r[i] < r[j]
    {
      if r[i] == r[j] {
        var x := r[i];
        assert multiset(r)[x] >= 2 by {
          assert r == r[..i] + [r[i]] + r[i + 1..j] + [r[j]] + r[j + 1..];
        }
        MultiplicityOne(s, x);
      }
    }
  }

  lemma {:induction false} MultiplicityOne(s: seq<real>, x: real)
    requires forall i, j :: 0 <= i < j < |s| ==> s[i] != s[j]
    ensures multiset(s)[x] <= 1
  {
    if |s| > 0 {
      var rest := s[1..];
      assert s == [s[0]] + rest;
      MultiplicityOne(rest, x);
      if s[0] == x {
        assert x !in rest;
      }
    }
  }

  // ---------------------------------------------------------------------
  // The index lookup of `find_eigensystem`

  /** `np.where(xs == x)[0][0]`: the first position holding `x`, if any. */
  function FirstIndexOf(xs: seq<real>, x: real): (r: Result<nat>)
    ensures r.Success? ==> r.value < |xs| && xs[r.value] == x && x !in xs[..r.value]
    ensures r.Failure? <==> x !in xs
    ensures r.Failure? ==> r.error == IndexError
  {
    if |xs| == 0 then Failure(IndexError)
    else if xs[0] == x then Success(0)
    else
      match FirstIndexOf(xs[1..], x)
      case Success(i) =>
        assert xs[..i + 1] == [xs[0]] + xs[1..][..i];
        Success(i + 1)
      case Failure(e) =>
        assert xs == [xs[0]] + xs[1..];
        Failure(e)
  }

  /** `[np.where(vals == eva)[0][0] for eva in unique_vals]`. */
  function SelectIndices(rounded: seq<real>, unique: seq<real>): (r: Result<seq<nat>>)
    ensures r.Failure? <==> exists t :: 0 <= t < |unique| && unique[t] !in rounded
    ensures r.Failure? ==> r.error == IndexError
    ensures r.Success? ==> |r.value| == |unique|
    ensures r.Success? ==> forall t :: 0 <= t < |unique| ==>
              r.value[t] < |rounded| && rounded[r.value[t]] == unique[t] && unique[t] !in rounded[..r.value[t]]
  {
    if |unique| == 0 then Success([])
    else
      var last := |unique| - 1;
      match SelectIndices(rounded, unique[..last])
      case Failure(e) => Failure(e)
      case Success(idx) =>
        match FirstIndexOf(rounded, unique[last])
        case Failure(e) => Failure(e)
        case Success(i) => Success(idx + [i])
  }
}
