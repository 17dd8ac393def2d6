/** `FixedSystemParameters` of floq/core/fixed_system.py, which
    benchmark/museum_of_evolution/uncompiled_floq/fixed_system.py repeats
    line for line.

    The object stores `dim`, `nz`, `nc`, `np`, `omega`, `t`, `decimals` and
    `sparse`, and keeps the derived fields `k_dim`, `nz_max`, `nz_min`,
    `nc_max`, `nc_min` up to date from its property setters; the setters for
    `nz` and `nc` reject even values with a `UsageError`. */
module FixedParams {
  import opened Seqs
  import opened Index
  import PyInt

  datatype UsageError = EvenNz | EvenNc


  datatype Result<T> = Success(value: T) | Failure(error: UsageError)

  /** `-(value-1)/2` in Python 2: the negation binds first, then floor division. */
  function NzMin(n: int): int { (-(n - 1)) / 2 }

  /** The signed range `[nz_min, nz_max]` always has `n` members, and it is
      symmetric about zero exactly when `n` is odd. */
  lemma ZoneRange(n: int)
    ensures Cutoff(n) - NzMin(n) + 1 == n
    ensures NzMin(n) == -Cutoff(n) <==> n % 2 == 1
  {
    var q, r := (n - 1) / 2, (n - 1) % 2;
    assert n - 1 == 2 * q + r;
    if r == 0 {
      PyInt.DivModUnique(-(n - 1), 2, -q, 0);
    } else {
      PyInt.DivModUnique(-(n - 1), 2, -q - 1, 1);
    }
  }

  /** The values a parameter object holds apart from its derived fields. */
  datatype ParamValues = ParamValues(dim: int, nz: int, nc: int, np: int, omega: real, t: real,
                                     decimals: int, sparse: bool)

  class FixedSystemParameters {
    var dim: int
    var nz: int
    var nc: int
    var np: int
    var omega: real
    var t: real
    var decimals: int
    var sparse: bool

    var kDim: int
    var nzMax: int
    var nzMin: int
    var ncMax: int
    var ncMin: int

    function Values(): ParamValues
      reads this
    {
      ParamValues(dim, nz, nc, np, omega, t, decimals, sparse)
    }

    /** The derived fields agree with `dim`, `nz` and `nc`, and both `nz` and
        `nc` are odd. */
    ghost predicate Valid()
      reads this
    {
      nz % 2 == 1 && nc % 2 == 1 &&
      kDim == dim * nz &&
      nzMax == Cutoff(nz) && nzMin == NzMin(nz) &&
      ncMax == Cutoff(nc) && ncMin == NzMin(nc)
    }

    /** The object as `__init__` starts it: `_dim`, `_nz` and `_nc` are 0. */
    constructor Blank()
      ensures dim == 0 && nz == 0 && nc == 0
    {
      dim, nz, nc, np := 0, 0, 0, 0;
      omega, t, decimals, sparse := 0.0, 0.0, 0, true;
      kDim, nzMax, nzMin, ncMax, ncMin := 0, 0, 0, 0, 0;
    }

    /** The `dim` setter: re-derives `k_dim`. */
    method SetDim(value: int)
      modifies this
      ensures Values() == old(Values()).(dim := value)
      ensures kDim == nz * value
      ensures nzMax == old(nzMax) && nzMin == old(nzMin) && ncMax == old(ncMax) && ncMin == old(ncMin)
      ensures old(Valid()) ==> Valid()
    {
      dim := value;
      kDim := nz * value;
    }

    /** The `nz` setter: an even value raises `UsageError` before anything is
        assigned; an odd one is stored with `k_dim`, `nz_max`, `nz_min`. */
    method SetNz(value: int) returns (err: Option<UsageError>)
      modifies this
      ensures value % 2 == 0 ==> err == Some(EvenNz) && unchanged(this)
      ensures value % 2 == 1 ==> err == None && Values() == old(Values()).(nz := value)
      ensures value % 2 == 1 ==> kDim == dim * value && nzMax == Cutoff(value) && nzMin == NzMin(value)
      ensures ncMax == old(ncMax) && ncMin == old(ncMin)
      ensures old(Valid()) ==> Valid()
    {
      if value % 2 == 0 {
        return Some(EvenNz);
      }
      nz := value;
      kDim := dim * value;
      nzMax := (value - 1) / 2;
      nzMin := (-(value - 1)) / 2;
      return None;
    }

    /** The `nc` setter: the same parity check, then `nc_max` and `nc_min`. */
    method SetNc(value: int) returns (err: Option<UsageError>)
      modifies this
      ensures value % 2 == 0 ==> err == Some(EvenNc) && unchanged(this)
      ensures value % 2 == 1 ==> err == None && Values() == old(Values()).(nc := value)
      ensures value % 2 == 1 ==> ncMax == Cutoff(value) && ncMin == NzMin(value)
      ensures kDim == old(kDim) && nzMax == old(nzMax) && nzMin == old(nzMin)
      ensures old(Valid()) ==> Valid()
    {
      if value % 2 == 0 {
        return Some(EvenNc);
      }
      nc := value;
      ncMax := (value - 1) / 2;
      ncMin := (-(value - 1)) / 2;
      return None;
    }

    /** `params.nz += 2`, as the adaptive loop of `FixedSystem` does it: from
        a valid state the new `nz` is odd, so the setter cannot fail. */
    method GrowNz()
      requires Valid()
      modifies this
      ensures Valid()
      ensures Values() == old(Values()).(nz := old(nz) + 2)
    {
      var err := SetNz(nz + 2);
      assert err == None;
    }
  }

  /** `FixedSystemParameters(dim, nz, nc, np, omega, t, decimals, sparse)`:
      the setters run in the order of `__init__`, so an even `nz` is reported
      before an even `nc`. */
  method NewParameters(dim: int, nz: int, nc: int, np: int, omega: real, t: real, decimals: int, sparse: bool)
    returns (r: Result<FixedSystemParameters>)
    ensures nz % 2 == 0 ==> r == Failure(EvenNz)
    ensures nz % 2 == 1 && nc % 2 == 0 ==> r == Failure(EvenNc)
    ensures r.Success? <==> nz % 2 == 1 && nc % 2 == 1
    ensures r.Success? ==> fresh(r.value) && r.value.Valid()
    ensures r.Success? ==> r.value.Values() == ParamValues(dim, nz, nc, np, omega, t, decimals, sparse)
  {
    var p := new FixedSystemParameters.Blank();
    p.SetDim(dim);
    var err := p.SetNz(nz);
    if err.Some? {
      return Failure(err.value);
    }
    err := p.SetNc(nc);
    if err.Some? {
      return Failure(err.value);
    }
    p.np := np;
    p.omega := omega;
    p.t := t;
    p.decimals := decimals;
    p.sparse := sparse;
    return Success(p);
  }
}
