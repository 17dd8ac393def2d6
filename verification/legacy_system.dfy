/** The two older problem classes with setter-maintained derived fields:
    `FixedSystem` of floq/fixed_system.py, whose `nz` setter rejects even
    values, and `FloquetProblem` of floq/floquet_problem.py, which accepts
    any `nz`.  Both files also carry a parameter class for tests
    (`FixedSystemParameters`, `FloquetProblemParameters`) with the same
    None-aware setters; it is `OptionalParameters` here.

    `_nz` and `_dim` start at `0.0`; they only ever take part in the product
    `k_dim`, so they are `0` here. */
module LegacySystem {
  import opened Seqs
  import opened Complex
  import opened Index
  import FixedParams

  datatype Error = UsageError | TypeError


  /** The derived fields the `nz` setter writes, as a function of `dim` and
      `nz`: `k_dim`, `nz_max`, `nz_min`. */
  predicate Derived(dim: int, nz: int, kDim: int, nzMax: int, nzMin: int)
  {
    kDim == dim * nz && nzMax == Cutoff(nz) && nzMin == FixedParams.NzMin(nz)
  }

  /** `nz_min` mirrors `nz_max` when `nz` is odd; for an even `nz`, which
      only `FloquetProblem` lets through, the range is one longer below. */
  lemma DerivedRange(dim: int, nz: int, kDim: int, nzMax: int, nzMin: int)
    requires Derived(dim, nz, kDim, nzMax, nzMin)
    ensures nz % 2 == 1 ==> nzMin == -nzMax
    ensures nz % 2 == 0 ==> nzMin == -nzMax - 1
    ensures nzMax - nzMin + 1 == nz
  {
    FixedParams.ZoneRange(nz);
  }

  class FixedSystem {
    var hf: seq<Mat>
    var dhf: seq<seq<Mat>>
    var nz: int
    var dim: int
    var omega: real
    var t: real
    var decimals: int
    var nc: int
    var np: int
    var kDim: int
    var nzMax: int
    var nzMin: int

    ghost predicate Valid()
      reads this
    {
      nz % 2 == 1 && Derived(dim, nz, kDim, nzMax, nzMin)
    }

    /** The object as `__init__` finds it before the first setter runs. */
    constructor Blank()
      ensures nz == 0 && dim == 0
    {
      hf, dhf := [], [];
      nz, dim := 0, 0;
      omega, t, decimals := 0.0, 0.0, 0;
      nc, np := 0, 0;
      kDim, nzMax, nzMin := 0, 0, 0;
    }

    /** The `nz` setter: `UsageError` on an even value, nothing assigned. */
    method SetNz(value: int) returns (err: Option<Error>)
      modifies this
      ensures value % 2 == 0 ==> err == Some(UsageError) && unchanged(this)
      ensures value % 2 == 1 ==> err == None && nz == value && Derived(dim, value, kDim, nzMax, nzMin)
      ensures dim == old(dim) && hf == old(hf) && dhf == old(dhf) && omega == old(omega) && t == old(t)
      ensures decimals == old(decimals) && nc == old(nc) && np == old(np)
      ensures old(Valid()) ==> Valid()
    {
      if value % 2 == 0 {
        return Some(UsageError);
      }
      nz := value;
      kDim := dim * value;
      nzMax := (value - 1) / 2;
      nzMin := (-(value - 1)) / 2;
      return None;
    }

    /** The `dim` setter: re-derives `k_dim` only. */
    method SetDim(value: int)
      modifies this
      ensures dim == value && kDim == nz * value
      ensures nz == old(nz) && nzMax == old(nzMax) && nzMin == old(nzMin)
      ensures hf == old(hf) && dhf == old(dhf) && omega == old(omega) && t == old(t)
      ensures decimals == old(decimals) && nc == old(nc) && np == old(np)
      ensures old(Valid()) ==> Valid()
    {
      dim := value;
      kDim := nz * value;
    }
  }

  /** `FixedSystem(hf, dhf, nz, omega, t, decimals)`: `nz` is set first (and
      rejected when even), then `dim`, `nc` and `np` from the shapes. */
  method NewFixedSystem(hf: seq<Mat>, dhf: seq<seq<Mat>>, nz: int, omega: real, t: real, decimals: int)
    returns (r: Option<FixedSystem>, err: Option<Error>)
    ensures nz % 2 == 0 <==> err == Some(UsageError)
    ensures nz % 2 == 0 <==> r.None?
    ensures r.Some? ==> err.None? && fresh(r.value) && r.value.Valid()
    ensures r.Some? ==> r.value.hf == hf && r.value.dhf == dhf && r.value.omega == omega && r.value.t == t
    ensures r.Some? ==> r.value.decimals == decimals && r.value.nz == nz
    ensures r.Some? ==> r.value.dim == ComponentDim(hf) && r.value.nc == |hf| && r.value.np == |dhf|
    ensures r.Some? ==> r.value.kDim == ComponentDim(hf) * nz
  {
    var fs := new FixedSystem.Blank();
    fs.hf, fs.dhf := hf, dhf;
    err := fs.SetNz(nz);
    if err.Some? {
      return None, err;
    }
    fs.omega, fs.t, fs.decimals := omega, t, decimals;
    fs.SetDim(ComponentDim(hf));
    fs.nc, fs.np := |hf|, |dhf|;
    return Some(fs), None;
  }

  /** `FixedSystemParameters` of floq/fixed_system.py and
      `FloquetProblemParameters` of floq/floquet_problem.py: every argument
      may be `None`.  `k_dim`, `nz_max` and `nz_min` are absent until a
      setter first writes them.  Multiplying by `None` raises `TypeError`
      after the setter has already stored its value. */
  class OptionalParameters {
    var dim: Option<int>
    var nz: Option<int>
    var nc: Option<int>
    var np: Option<int>
    var omega: Option<real>
    var t: Option<real>
    var decimals: int
    var kDim: Option<int>
    var nzMax: Option<int>
    var nzMin: Option<int>

    /** Once both `dim` and `nz` are known, `k_dim` is their product. */
    ghost predicate Valid()
      reads this
    {
      dim.Some? && nz.Some? ==> kDim == Some(dim.value * nz.value)
    }

    constructor Blank()
      ensures dim == None && nz == None && kDim == None && nzMax == None && nzMin == None
      ensures Valid()
    {
      dim, nz, nc, np := None, None, None, None;
      omega, t, decimals := None, None, 10;
      kDim, nzMax, nzMin := None, None, None;
    }

    /** The `nz` setter: store, then derive only if `dim` is known. */
    method SetNz(value: Option<int>) returns (err: Option<Error>)
      modifies this
      ensures nz == value && dim == old(dim)
      ensures err == Some(TypeError) <==> dim.Some? && value.None?
      ensures err.None? <==> !(dim.Some? && value.None?)
      ensures dim.Some? && value.Some? ==>
                kDim == Some(dim.value * value.value) &&
                nzMax == Some(Cutoff(value.value)) && nzMin == Some(FixedParams.NzMin(value.value))
      ensures !(dim.Some? && value.Some?) ==> kDim == old(kDim) && nzMax == old(nzMax) && nzMin == old(nzMin)
      ensures nc == old(nc) && np == old(np) && omega == old(omega) && t == old(t) && decimals == old(decimals)
      ensures old(Valid()) ==> Valid()
    {
      nz := value;
      if dim.Some? {
        if value.None? {
          return Some(TypeError);
        }
        kDim := Some(dim.value * value.value);
        nzMax := Some((value.value - 1) / 2);
        nzMin := Some((-(value.value - 1)) / 2);
      }
      return None;
    }

    /** The `dim` setter: store, then re-derive `k_dim` if `nz` is known. */
    method SetDim(value: Option<int>) returns (err: Option<Error>)
      modifies this
      ensures dim == value && nz == old(nz)
      ensures err == Some(TypeError) <==> nz.Some? && value.None?
      ensures err.None? <==> !(nz.Some? && value.None?)
      ensures nz.Some? && value.Some? ==> kDim == Some(nz.value * value.value)
      ensures !(nz.Some? && value.Some?) ==> kDim == old(kDim)
      ensures nzMax == old(nzMax) && nzMin == old(nzMin)
      ensures nc == old(nc) && np == old(np) && omega == old(omega) && t == old(t) && decimals == old(decimals)
      ensures old(Valid()) ==> Valid()
    {
      dim := value;
      if nz.Some? {
        if value.None? {
          return Some(TypeError);
        }
        kDim := Some(nz.value * value.value);
      }
      return None;
    }
  }

  /** `FixedSystemParameters(dim, nz, nc, np, omega, t, decimals)`: `dim` is
      set while `nz` is still `None`, then `nz`; a known `dim` with a missing
      `nz` raises `TypeError` there. */
  method NewOptionalParameters(dim: Option<int>, nz: Option<int>, nc: Option<int>, np: Option<int>,
                               omega: Option<real>, t: Option<real>, decimals: int)
    returns (r: Option<OptionalParameters>, err: Option<Error>)
    ensures err == Some(TypeError) <==> dim.Some? && nz.None?
    ensures r.None? <==> err.Some?
    ensures r.Some? ==> fresh(r.value) && r.value.Valid()
    ensures r.Some? ==> r.value.dim == dim && r.value.nz == nz && r.value.nc == nc && r.value.np == np
    ensures r.Some? ==> r.value.omega == omega && r.value.t == t && r.value.decimals == decimals
    ensures r.Some? && dim.Some? ==> r.value.nzMax == Some(Cutoff(nz.value)) && r.value.kDim == Some(dim.value * nz.value)
    ensures r.Some? && dim.None? ==> r.value.kDim == None && r.value.nzMax == None
  {
    var p := new OptionalParameters.Blank();
    var e := p.SetDim(dim);
    e := p.SetNz(nz);
    if e.Some? {
      return None, e;
    }
    p.nc, p.np := nc, np;
    p.omega, p.t := omega, t;
    p.decimals := decimals;
    return Some(p), None;
  }

  /** `FloquetProblem` of floq/floquet_problem.py: the same setters without
      the parity check, so every `nz` is stored with its derived fields. */
  class FloquetProblem {
    var hf: seq<Mat>
    var dhf: seq<seq<Mat>>
    var nz: int
    var dim: int
    var omega: real
    var t: real
    var decimals: int
    var nc: int
    var np: int
    var kDim: int
    var nzMax: int
    var nzMin: int

    ghost predicate Valid()
      reads this
    {
      Derived(dim, nz, kDim, nzMax, nzMin)
    }

    /** The `nz` setter: always accepts. */
    method SetNz(value: int)
      modifies this
      ensures nz == value && dim == old(dim) && Derived(dim, value, kDim, nzMax, nzMin)
      ensures hf == old(hf) && dhf == old(dhf) && omega == old(omega) && t == old(t)
      ensures decimals == old(decimals) && nc == old(nc) && np == old(np)
    {
      nz := value;
      kDim := dim * value;
      nzMax := (value - 1) / 2;
      nzMin := (-(value - 1)) / 2;
    }

    /** The `dim` setter: re-derives `k_dim` only. */
    method SetDim(value: int)
      modifies this
      ensures dim == value && kDim == nz * value
      ensures nz == old(nz) && nzMax == old(nzMax) && nzMin == old(nzMin)
      ensures hf == old(hf) && dhf == old(dhf) && omega == old(omega) && t == old(t)
      ensures decimals == old(decimals) && nc == old(nc) && np == old(np)
      ensures old(Valid()) ==> Valid()
    {
      dim := value;
      kDim := nz * value;
    }

    /** `__init__`: `nz` first with `dim` still 0, then the fields, then
        `dim`, `nc`, `np` from the shapes. */
    constructor (hf: seq<Mat>, dhf: seq<seq<Mat>>, nz: int, omega: real, t: real, decimals: int)
      ensures Valid()
      ensures this.hf == hf && this.dhf == dhf && this.nz == nz && this.omega == omega && this.t == t
      ensures this.decimals == decimals
      ensures dim == ComponentDim(hf) && nc == |hf| && np == |dhf|
      ensures kDim == ComponentDim(hf) * nz
    {
      this.hf, this.dhf := hf, dhf;
      this.dim, this.nz := 0, 0;
      kDim, nzMax, nzMin := 0, 0, 0;
      this.nc, this.np := 0, 0;
      this.omega, this.t, this.decimals := omega, t, decimals;
      new;
      SetNz(nz);
      SetDim(ComponentDim(hf));
      nc, np := |hf|, |dhf|;
    }
  }
}
