/** Zone (Fourier) components of eigenvectors in floq/core/evolution.py:
    `separate_components`, `numba_sum_components`/`calculate_phi`, the
    eigenvector lookup of `find_eigensystem`, and the index arithmetic of
    the dU sum (`calculate_factors`, `assemble_du`).

    An eigenvector of K has `k_dim = nz*dim` entries: `nz` consecutive
    components of length `dim`, one per Brillouin zone. */
module Zones {
  import opened Seqs
  import opened Complex
  import opened Index
  import opened Eigen
  import NumpyReplacements
  import BlockMatrix

  // ---------------------------------------------------------------------
  // `separate_components`

  lemma SliceBound(z: nat, n: nat, len: nat)
    requires z < n
    ensures z * len + len == (z + 1) * len <= n * len
  {
    BlockMatrix.MulMono(z + 1, n, len);
  }

  lemma ExactQuotient(x: nat, n: int)
    requires n > 0 && x % n == 0
    ensures n * (x / n) == x
  {
  }

  /** Piece `z` of length `len`. */
  function Piece(v: Vec, z: nat, len: nat): (p: Vec)
    requires z * len + len <= |v|
    ensures |p| == len
  {
    v[z * len..z * len + len]
  }

  /** `np.split(v, n)`: `n` equal contiguous pieces, or an error when `n`
      does not divide the length (or is not positive). */
  function Split(v: Vec, n: int): (r: Result<seq<Vec>>)
    ensures r.Failure? <==> n <= 0 || |v| % n != 0
    ensures r.Failure? ==> r.error == SplitError
    ensures r.Success? ==> |r.value| == n && forall z :: 0 <= z < n ==> |r.value[z]| == |v| / n
  {
    if n <= 0 || |v| % n != 0 then Failure(SplitError)
    else
      var len := |v| / n;
      ExactQuotient(|v|, n);
      Success(seq(n, z requires 0 <= z < n => SliceBound(z, n, len); Piece(v, z, len)))
  }

  /** The pieces put back together give the vector. */
  lemma SplitFlatten(v: Vec, n: int)
    requires Split(v, n).Success?
    ensures Flatten(Split(v, n).value) == v
  {
    var parts := Split(v, n).value;
    var len := |v| / n;
    ExactQuotient(|v|, n);
    forall z | 0 <= z < n
      ensures z * len + len <= |v| && parts[z] == v[z * len..z * len + len]
    {
      SliceBound(z, n, len);
    }
    FlattenPrefix(v, parts, len, n);
    assert parts[..n] == parts;
  }

  lemma {:induction false} FlattenPrefix(v: Vec, parts: seq<Vec>, len: nat, k: nat)
    requires k <= |parts| && |parts| * len == |v|
    requires forall z :: 0 <= z < |parts| ==> z * len + len <= |v| && parts[z] == v[z * len..z * len + len]
    ensures k * len <= |v| && Flatten(parts[..k]) == v[..k * len]
  {
    if k == 0 {
      assert parts[..0] == [];
    } else {
      FlattenPrefix(v, parts, len, k - 1);
      var lo := (k - 1) * len;
      SliceBound(k - 1, |parts|, len);
      assert lo + len == k * len;
      var prefix := parts[..k];
      assert prefix[..k - 1] == parts[..k - 1] && prefix[k - 1] == parts[k - 1];
      assert Flatten(prefix) == Flatten(parts[..k - 1]) + parts[k - 1];
      assert v[..lo + len] == v[..lo] + v[lo..lo + len];
    }
  }

  /** `separate_components`: every vector split into `n` zone components,
      failing if any of them cannot be. */
  function SeparateComponents(vecs: seq<Vec>, n: int): (r: Result<seq<seq<Vec>>>)
    ensures r.Success? <==> forall i :: 0 <= i < |vecs| ==> Split(vecs[i], n).Success?
    ensures r.Failure? ==> r.error == SplitError
    ensures r.Success? ==> |r.value| == |vecs|
    ensures r.Success? ==> forall i :: 0 <= i < |vecs| ==> |r.value[i]| == n && Flatten(r.value[i]) == vecs[i]
    ensures r.Success? ==> forall i, z :: 0 <= i < |vecs| && 0 <= z < n ==> |r.value[i][z]| == |vecs[i]| / n
  {
    if |vecs| == 0 then Success([])
    else
      var last := |vecs| - 1;
      match SeparateComponents(vecs[..last], n)
      case Failure(e) => Failure(e)
      case Success(init) =>
        match Split(vecs[last], n)
        case Failure(e) => Failure(e)
        case Success(parts) =>
          SplitFlatten(vecs[last], n);
          Success(init + [parts])
  }

  // ---------------------------------------------------------------------
  // `numba_sum_components` and `calculate_phi`

  /** The sum of the zone components, each of length `dim`. */
  function VecSum(parts: seq<Vec>, dim: nat): (s: Vec)
    requires forall z :: 0 <= z < |parts| ==> |parts[z]| == dim
    ensures |s| == dim
  {
    if |parts| == 0 then ZeroVec(dim)
    else VecAdd(VecSum(parts[..|parts| - 1], dim), parts[|parts| - 1])
  }

  /** Summing two runs of components adds their sums. */
  lemma {:induction false} VecSumAppend(a: seq<Vec>, b: seq<Vec>, dim: nat)
    requires forall z :: 0 <= z < |a| ==> |a[z]| == dim
    requires forall z :: 0 <= z < |b| ==> |b[z]| == dim
    ensures VecSum(a + b, dim) == VecAdd(VecSum(a, dim), VecSum(b, dim))
  {
    if |b| == 0 {
      assert a + b == a;
    } else {
      var b' := b[..|b| - 1];
      VecSumAppend(a, b', dim);
      assert (a + b)[..|a + b| - 1] == a + b';
    }
  }

  /** `numba_sum_components(vec, dim)`: adds the zone components in turn
      into a zero vector. */
  method SumComponents(vec: seq<Vec>, dim: nat) returns (result: array<C>)
    requires forall z :: 0 <= z < |vec| ==> |vec[z]| == dim
    ensures fresh(result) && result.Length == dim
    ensures result[..] == VecSum(vec, dim)
  {
    var n := |vec|;
    result := NumpyReplacements.Zeros1(dim);
    assert result[..] == VecSum(vec[..0], dim);
    for i := 0 to n
      invariant result.Length == dim
      invariant result[..] == VecSum(vec[..i], dim)
    {
      AddInto(result, vec[i]);
      SumStep(vec, i, dim);
    }
    assert vec[..n] == vec;
  }

  /** `result += v` on a complex vector, entry by entry. */
  method AddInto(result: array<C>, v: Vec)
    requires result.Length == |v|
    modifies result
    ensures result[..] == VecAdd(old(result[..]), v)
  {
    for a := 0 to result.Length
      invariant forall b :: 0 <= b < a ==> result[b] == Add(old(result[b]), v[b])
      invariant forall b :: a <= b < result.Length ==> result[b] == old(result[b])
    {
      result[a] := Add(result[a], v[a]);
    }
  }

  lemma SumStep(vec: seq<Vec>, i: nat, dim: nat)
    requires i < |vec| && forall z :: 0 <= z < |vec| ==> |vec[z]| == dim
    ensures VecSum(vec[..i + 1], dim) == VecAdd(VecSum(vec[..i], dim), vec[i])
  {
    assert vec[..i + 1][..i] == vec[..i];
  }

  /** `calculate_phi`: row `i` of phi is the sum of the zone components of
      eigenvector `i`; `dim` is the number of eigenvectors. */
  method CalculatePhi(vecs: seq<seq<Vec>>) returns (phi: array2<C>)
    requires forall i, z :: 0 <= i < |vecs| && 0 <= z < |vecs[i]| ==> |vecs[i][z]| == |vecs|
    ensures fresh(phi) && phi.Length0 == |vecs| && phi.Length1 == |vecs|
    ensures forall i, a :: 0 <= i < |vecs| && 0 <= a < |vecs| ==> phi[i, a] == VecSum(vecs[i], |vecs|)[a]
  {
    var dim := |vecs|;
    phi := new C[dim, dim];
    for i := 0 to dim
      invariant forall p, a :: 0 <= p < i && 0 <= a < dim ==> phi[p, a] == VecSum(vecs[p], dim)[a]
    {
      var row := SumComponents(vecs[i], dim);
      var sum := row[..];
      for a := 0 to dim
        invariant forall p, b :: 0 <= p < i && 0 <= b < dim ==> phi[p, b] == VecSum(vecs[p], dim)[b]
        invariant forall b :: 0 <= b < a ==> phi[i, b] == sum[b]
      {
        phi[i, a] := sum[a];
      }
    }
  }

  // ---------------------------------------------------------------------
  // The eigenvector lookup of `find_eigensystem`

  /** `p` is the first position whose rounded eigenvalue is `e`, the one
      `np.where(vals == e)[0][0]` names. */
  ghost predicate FirstWith(vals: seq<real>, rnd: real -> real, e: real, p: int)
  {
    0 <= p < |vals| && rnd(vals[p]) == e && forall q :: 0 <= q < p ==> rnd(vals[q]) != e
  }

  /** `v` is the eigenvector at the first position whose rounded eigenvalue
      is `e`. */
  ghost predicate EigenvectorFor(v: Vec, e: real, vals: seq<real>, vecs: seq<Vec>, rnd: real -> real)
    requires |vecs| == |vals|
  {
    exists p :: FirstWith(vals, rnd, e, p) && vecs[p] == v
  }

  /** Every zone split in `parts` has `nz` components and reassembles into
      the eigenvector for the matching value of `unique`. */
  ghost predicate SplitEigenvectors(parts: seq<seq<Vec>>, unique: seq<real>, nz: int,
                                    vals: seq<real>, vecs: seq<Vec>, rnd: real -> real)
    requires |parts| == |unique| && |vecs| == |vals|
  {
    forall t :: 0 <= t < |parts| ==> |parts[t]| == nz && EigenvectorFor(Flatten(parts[t]), unique[t], vals, vecs, rnd)
  }

  /** The eigenvector looked up for every value of `unique` splits into `nz`
      zone components. */
  ghost predicate SplitsAt(vals: seq<real>, vecs: seq<Vec>, rnd: real -> real, unique: seq<real>, nz: int)
    requires |vecs| == |vals|
  {
    forall t, p :: 0 <= t < |unique| && FirstWith(vals, rnd, unique[t], p) ==> Split(vecs[p], nz).Success?
  }

  /** `find_eigensystem` after the eigen-solver: the quasi-energies, and for
      each the zone components of the first eigenvector whose rounded
      eigenvalue equals it.  It raises `EigenvalueNumberError` when the
      count of quasi-energies is wrong, `IndexError` when one of them is
      not among the rounded eigenvalues, and a split error when an
      eigenvector does not split into `nz` components. */
  function FindEigensystem(vals: seq<real>, vecs: seq<Vec>, omega: real, dim: nat, nz: int,
                           rnd: real -> real): (r: Result<(seq<real>, seq<seq<Vec>>)>)
    requires omega != 0.0 && |vecs| == |vals|
    ensures r == Failure(EigenvalueNumberError) <==> FindUniqueVals(vals, omega, dim, rnd).Failure?
    ensures r == Failure(IndexError) <==>
              FindUniqueVals(vals, omega, dim, rnd).Success? &&
              exists t :: 0 <= t < dim && FindUniqueVals(vals, omega, dim, rnd).value[t] !in RoundAll(vals, rnd)
    ensures r.Success? <==>
              FindUniqueVals(vals, omega, dim, rnd).Success? &&
              (forall t :: 0 <= t < dim ==> FindUniqueVals(vals, omega, dim, rnd).value[t] in RoundAll(vals, rnd)) &&
              SplitsAt(vals, vecs, rnd, FindUniqueVals(vals, omega, dim, rnd).value, nz)
    ensures r.Success? ==> r.value.0 == FindUniqueVals(vals, omega, dim, rnd).value
    ensures r.Success? ==> |r.value.1| == |r.value.0| == dim
    ensures r.Success? ==> SplitEigenvectors(r.value.1, r.value.0, nz, vals, vecs, rnd)
  {
    var found := FindUniqueVals(vals, omega, dim, rnd);
    if found.Failure? then Failure(found.error)
    else
      var rounded := RoundAll(vals, rnd);
      var lookup := SelectIndices(rounded, found.value);
      if lookup.Failure? then Failure(lookup.error)
      else
        var chosen := Pick(vecs, lookup.value);
        LookupIsFirst(vals, rnd, rounded, found.value, lookup.value);
        var split := SeparateComponents(chosen, nz);
        SplitOutcome(vals, vecs, rnd, found.value, lookup.value, chosen, nz);
        if split.Failure? then Failure(split.error)
        else
          ChosenAreEigenvectors(vals, vecs, rnd, found.value, lookup.value, chosen, split.value, nz);
          Success((found.value, split.value))
  }

  /** `vals.round(decimals)`. */
  function RoundAll(vals: seq<real>, rnd: real -> real): (r: seq<real>)
    ensures |r| == |vals| && forall i :: 0 <= i < |vals| ==> r[i] == rnd(vals[i])
  {
    seq(|vals|, i requires 0 <= i < |vals| => rnd(vals[i]))
  }

  /** `vecs[:, indices]`: the eigenvectors at the given positions. */
  function Pick(vecs: seq<Vec>, idx: seq<nat>): (r: seq<Vec>)
    requires forall t :: 0 <= t < |idx| ==> idx[t] < |vecs|
    ensures |r| == |idx| && forall t :: 0 <= t < |idx| ==> r[t] == vecs[idx[t]]
  {
    seq(|idx|, t requires 0 <= t < |idx| => vecs[idx[t]])
  }

  /** The positions `SelectIndices` finds are exactly the first positions
      of the values. */
  lemma LookupIsFirst(vals: seq<real>, rnd: real -> real, rounded: seq<real>, unique: seq<real>, idx: seq<nat>)
    requires |rounded| == |vals| && forall i :: 0 <= i < |vals| ==> rounded[i] == rnd(vals[i])
    requires |idx| == |unique|
    requires forall t :: 0 <= t < |unique| ==>
               idx[t] < |rounded| && rounded[idx[t]] == unique[t] && unique[t] !in rounded[..idx[t]]
    ensures forall t, p :: 0 <= t < |unique| ==> (FirstWith(vals, rnd, unique[t], p) <==> p == idx[t])
  {
    forall t, p | 0 <= t < |unique|
      ensures FirstWith(vals, rnd, unique[t], p) <==> p == idx[t]
    {
      forall q | 0 <= q < idx[t]
        ensures rnd(vals[q]) != unique[t]
      {
        assert rounded[..idx[t]][q] == rounded[q];
      }
    }
  }

  lemma SplitOutcome(vals: seq<real>, vecs: seq<Vec>, rnd: real -> real, unique: seq<real>, idx: seq<nat>,
                     chosen: seq<Vec>, nz: int)
    requires |vecs| == |vals| && |idx| == |unique|
    requires forall t, p :: 0 <= t < |unique| ==> (FirstWith(vals, rnd, unique[t], p) <==> p == idx[t])
    requires |chosen| == |idx| && forall t :: 0 <= t < |idx| ==> idx[t] < |vecs| && chosen[t] == vecs[idx[t]]
    ensures SeparateComponents(chosen, nz).Success? <==> SplitsAt(vals, vecs, rnd, unique, nz)
    ensures SeparateComponents(chosen, nz).Failure? ==> SeparateComponents(chosen, nz).error == SplitError
  {
    if SeparateComponents(chosen, nz).Success? {
      forall t, p | 0 <= t < |unique| && FirstWith(vals, rnd, unique[t], p)
        ensures Split(vecs[p], nz).Success?
      {
        assert p == idx[t];
      }
    } else {
      var t :| 0 <= t < |chosen| && !Split(chosen[t], nz).Success?;
      assert FirstWith(vals, rnd, unique[t], idx[t]);
    }
  }

  lemma ChosenAreEigenvectors(vals: seq<real>, vecs: seq<Vec>, rnd: real -> real,
                              unique: seq<real>, idx: seq<nat>, chosen: seq<Vec>, parts: seq<seq<Vec>>, nz: int)
    requires |vecs| == |vals| && |idx| == |unique|
    requires forall t, p :: 0 <= t < |unique| ==> (FirstWith(vals, rnd, unique[t], p) <==> p == idx[t])
    requires |chosen| == |idx| && forall t :: 0 <= t < |idx| ==> idx[t] < |vecs| && chosen[t] == vecs[idx[t]]
    requires |parts| == |chosen| && forall t :: 0 <= t < |chosen| ==> |parts[t]| == nz && Flatten(parts[t]) == chosen[t]
    ensures SplitEigenvectors(parts, unique, nz, vals, vecs, rnd)
  {
    forall t | 0 <= t < |unique|
      ensures EigenvectorFor(Flatten(parts[t]), unique[t], vals, vecs, rnd)
    {
      assert FirstWith(vals, rnd, unique[t], idx[t]) && vecs[idx[t]] == Flatten(parts[t]);
    }
  }

  // ---------------------------------------------------------------------
  // Slot arithmetic of the dU sum

  /** `calculate_factors` stores the factor for the zone difference `dn` in
      slot `n_to_i(dn, 2*nz)`: for every `dn` it loops over that slot is
      `dn + nz - 1`, so distinct differences get distinct slots and all of
      them fit the axis of length `2*nz + 1`. */
  lemma FactorSlot(dn: int, nz: int)
    requires nz > 0 && -2 * Cutoff(nz) <= dn <= 2 * Cutoff(nz)
    ensures NToI(dn, 2 * nz) == dn + nz - 1
    ensures 0 <= NToI(dn, 2 * nz) <= 2 * nz - 2 < 2 * nz + 1
  {
    NToIPrincipal(dn, 2 * nz);
  }

  /** `assemble_du` reads slot `n_to_i(n1 - n2, 2*nz)` for zones `n1, n2`:
      every such slot is one that `calculate_factors` wrote, namely the one
      for `dn = n1 - n2`. */
  lemma DuSlot(n1: int, n2: int, nz: int)
    requires nz > 0
    requires -Cutoff(nz) <= n1 <= Cutoff(nz) && -Cutoff(nz) <= n2 <= Cutoff(nz)
    ensures -2 * Cutoff(nz) <= n1 - n2 <= 2 * Cutoff(nz)
    ensures NToI(n1 - n2, 2 * nz) == n1 - n2 + nz - 1
  {
    FactorSlot(n1 - n2, nz);
  }

  /** Distinct zone differences never share a slot. */
  lemma SlotsDistinct(d1: int, d2: int, nz: int)
    requires nz > 0
    requires -2 * Cutoff(nz) <= d1 <= 2 * Cutoff(nz) && -2 * Cutoff(nz) <= d2 <= 2 * Cutoff(nz)
    ensures NToI(d1, 2 * nz) == NToI(d2, 2 * nz) <==> d1 == d2
  {
    FactorSlot(d1, nz);
    FactorSlot(d2, nz);
  }

  /** The zone component `vecsstar[i2, n_to_i(-n2, nz)]` is a valid index,
      the mirror image of zone `n2`. */
  lemma MirrorZone(n2: int, nz: int)
    requires nz > 0 && -Cutoff(nz) <= n2 <= Cutoff(nz)
    ensures 0 <= NToI(-n2, nz) < nz
    ensures nz % 2 == 1 ==> NToI(-n2, nz) == nz - 1 - NToI(n2, nz)
  {
    if nz % 2 == 1 {
      NToIPrincipal(n2, nz);
      NToIPrincipal(-n2, nz);
    }
  }
}
