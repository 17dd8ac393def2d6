/** `FixedSystem` of benchmark/museum_of_evolution/uncompiled_floq/fixed_system.py:
    the earlier form of the class, holding `hf`, `dhf` and a parameter object
    but no cached results.  Its `FixedSystemParameters` is the class of
    module `FixedParams`, which that file repeats line for line. */
module MuseumFixedSystem {
  import opened Seqs
  import opened Complex
  import opened FixedParams

  class FixedSystem {
    const hf: seq<Mat>
    const dhf: seq<seq<Mat>>
    const params: FixedSystemParameters

    /** The parameters are consistent and dim, nc, np come from the shapes. */
    ghost predicate Valid()
      reads this, params
    {
      params.Valid() &&
      params.dim == ComponentDim(hf) && params.nc == |hf| && params.np == |dhf|
    }

    constructor Init(hf: seq<Mat>, dhf: seq<seq<Mat>>, params: FixedSystemParameters)
      requires params.Valid() && params.dim == ComponentDim(hf) && params.nc == |hf| && params.np == |dhf|
      ensures this.hf == hf && this.dhf == dhf && this.params == params
      ensures Valid()
    {
      this.hf := hf;
      this.dhf := dhf;
      this.params := params;
    }

    /** `__eq__`: hf, dhf and `(nz, omega, t)` agree. */
    predicate Equals(other: FixedSystem)
      reads this, params, other, other.params
    {
      hf == other.hf && dhf == other.dhf &&
      (params.nz, params.omega, params.t) == (other.params.nz, other.params.omega, other.params.t)
    }
  }

  /** `FixedSystem(hf, dhf, nz, omega, t, decimals, sparse)`: `sparse` is
      accepted and dropped, so the parameter object keeps its default `True`. */
  method NewFixedSystem(hf: seq<Mat>, dhf: seq<seq<Mat>>, nz: int, omega: real, t: real, decimals: int, sparse: bool)
    returns (r: Result<FixedSystem>)
    ensures r.Success? <==> nz % 2 == 1 && |hf| % 2 == 1
    ensures nz % 2 == 0 ==> r == Failure(EvenNz)
    ensures nz % 2 == 1 && |hf| % 2 == 0 ==> r == Failure(EvenNc)
    ensures r.Success? ==> fresh(r.value) && fresh(r.value.params) && r.value.Valid()
    ensures r.Success? ==> r.value.hf == hf && r.value.dhf == dhf
    ensures r.Success? ==> r.value.params.Values() == ParamValues(ComponentDim(hf), nz, |hf|, |dhf|, omega, t, decimals, true)
  {
    var p := NewParameters(ComponentDim(hf), nz, |hf|, |dhf|, omega, t, decimals, true);
    if p.Failure? {
      return Failure(p.error);
    }
    var fs := new FixedSystem.Init(hf, dhf, p.value);
    return Success(fs);
  }

  /** Two valid systems that are `==` differ at most in `decimals` and
      `sparse`. */
  lemma EqualsIgnoresRounding(a: FixedSystem, b: FixedSystem)
    requires a.Valid() && b.Valid() && a.Equals(b)
    ensures a.params.Values() == b.params.Values().(decimals := a.params.decimals, sparse := a.params.sparse)
  {
  }
}
