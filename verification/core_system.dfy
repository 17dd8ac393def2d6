/** `FixedSystem` of floq/core/fixed_system.py: one Floquet problem with
    lazily computed `u` and `du`.

    The numerical engine is not modelled.  `Engine` stands for it: `evolve`
    is `get_u_and_eigensystem` (which may raise `EigenvalueNumberError` or
    another exception), `isUnitary` is the unitarity test, and `derivative`
    is `get_du_from_eigensystem`.  All three are deterministic functions of
    their arguments.  The object keeps `_u, _vals, _vecs, _phi, _psi`
    together as one cached `Eigensystem`.

    `_compute_u` raises `nz` by 2 until the engine's `u` is unitary and
    nothing in the code bounds it, so the loop here takes a `fuel`
    argument and gives up with `OutOfFuel` when the fuel runs out. */
module CoreFixedSystem {
  import opened Seqs
  import opened Complex
  import opened FixedParams

  datatype Eigensystem = Eigensystem(u: Mat, vals: seq<real>, vecs: seq<seq<Vec>>, phi: Mat, psi: Mat)

  /** What `get_u_and_eigensystem` can raise: the `EigenvalueNumberError`
      of `find_unique_vals`, or another exception (the `IndexError` of the
      lookup of a unique eigenvalue, a failure of the sparse eigensolver). */
  datatype EngineError = EigenvalueNumberError | OtherError

  /** One call of `get_u_and_eigensystem`. */
  datatype Attempt = Solved(es: Eigensystem) | Failed(error: EngineError)

  datatype Engine = Engine(
    evolve: (seq<Mat>, ParamValues) -> Attempt,
    isUnitary: Mat -> bool,
    derivative: (seq<seq<Mat>>, Eigensystem, ParamValues) -> seq<Mat>)

  datatype Outcome<T> = Done(value: T) | Raised(error: EngineError) | OutOfFuel

  /** What `_test_nz` reports for given parameters: unitary with its
      results, not unitary, or the engine's exception passing through. */
  datatype NzTest = Unitary(es: Eigensystem) | NotUnitary | Raises(error: EngineError)

  function TestNz(engine: Engine, hf: seq<Mat>, v: ParamValues): (r: NzTest)
    ensures r.Unitary? <==> engine.evolve(hf, v).Solved? && engine.isUnitary(engine.evolve(hf, v).es.u)
    ensures r.Raises? <==> engine.evolve(hf, v).Failed?
    ensures r.Raises? ==> r.error == engine.evolve(hf, v).error
    ensures r.Unitary? ==> r.es == engine.evolve(hf, v).es
  {
    match engine.evolve(hf, v)
    case Failed(e) => Raises(e)
    case Solved(es) => if engine.isUnitary(es.u) then Unitary(es) else NotUnitary
  }

  /** The first `count` values of `nz` from `lo` upwards in steps of 2 were
      solved but their `u` was not unitary (`v` gives the other parameters). */
  ghost predicate Skipped(engine: Engine, hf: seq<Mat>, v: ParamValues, lo: int, count: int)
  {
    forall k :: 0 <= k < count ==> TestNz(engine, hf, v.(nz := lo + 2 * k)) == NotUnitary
  }

  lemma SkipOne(engine: Engine, hf: seq<Mat>, v: ParamValues, lo: int, count: int)
    requires Skipped(engine, hf, v, lo, count)
    requires TestNz(engine, hf, v.(nz := lo + 2 * count)) == NotUnitary
    ensures Skipped(engine, hf, v, lo, count + 1)
  {
  }

  /** One round of the loop of `_compute_u`: `nz` failed, so add 2 and
      test again. */
  method NextNz(engine: Engine, hf: seq<Mat>, params: FixedSystemParameters,
                ghost v0: ParamValues, ghost start: int, ghost steps: nat)
    returns (test: NzTest)
    requires params.Valid() && params.Values() == v0.(nz := params.nz) && params.nz == start + 2 * steps
    requires Skipped(engine, hf, v0, start, steps)
    requires TestNz(engine, hf, v0.(nz := params.nz)) == NotUnitary
    modifies params
    ensures params.Valid() && params.Values() == v0.(nz := params.nz) && params.nz == old(params.nz) + 2
    ensures Skipped(engine, hf, v0, start, steps + 1)
    ensures test == TestNz(engine, hf, params.Values())
  {
    SkipOne(engine, hf, v0, start, steps);
    params.GrowNz();
    test := TestNz(engine, hf, params.Values());
  }

  /** The loop of `_compute_u`: test `nz`, and while the engine's `u` is
      not unitary add 2 to `nz` and test again, at most `fuel` times.
      `steps` counts the rounds. */
  method RaiseNzUntilDecided(engine: Engine, hf: seq<Mat>, params: FixedSystemParameters, fuel: nat)
    returns (test: NzTest, exhausted: bool, ghost steps: nat)
    requires params.Valid()
    modifies params
    ensures params.Valid() && params.Values() == old(params.Values()).(nz := params.nz)
    ensures params.nz == old(params.nz) + 2 * steps && steps <= fuel
    ensures Skipped(engine, hf, old(params.Values()), old(params.nz), steps)
    ensures test == TestNz(engine, hf, params.Values())
    ensures exhausted <==> test == NotUnitary
    ensures exhausted ==> steps == fuel
    ensures TestNz(engine, hf, old(params.Values())) != NotUnitary ==> steps == 0
  {
    ghost var start, v0 := params.nz, params.Values();
    test := TestNz(engine, hf, params.Values());
    var rounds: nat := 0;
    while test == NotUnitary && rounds < fuel
      invariant params.Valid() && params.Values() == v0.(nz := params.nz)
      invariant rounds <= fuel && params.nz == start + 2 * rounds
      invariant test == TestNz(engine, hf, v0.(nz := params.nz))
      invariant Skipped(engine, hf, v0, start, rounds)
      invariant TestNz(engine, hf, v0) != NotUnitary ==> rounds == 0
    {
      test := NextNz(engine, hf, params, v0, start, rounds);
      rounds := rounds + 1;
    }
    exhausted, steps := test == NotUnitary, rounds;
  }

  class FixedSystem {
    const hf: seq<Mat>
    const dhf: seq<seq<Mat>>
    const params: FixedSystemParameters
    const engine: Engine
    var results: Option<Eigensystem>
    var du: Option<seq<Mat>>

    /** Parameters consistent and inferred from the shapes (with `sparse`
        always true), and the caches belong to the current parameters. */
    ghost predicate Valid()
      reads this, params
    {
      params.Valid() &&
      params.dim == ComponentDim(hf) && params.nc == |hf| && params.np == |dhf| && params.sparse &&
      (results.Some? ==> TestNz(engine, hf, params.Values()) == Unitary(results.value)) &&
      (du.Some? ==> results.Some? && du.value == engine.derivative(dhf, results.value, params.Values()))
    }

    constructor Init(hf: seq<Mat>, dhf: seq<seq<Mat>>, params: FixedSystemParameters, engine: Engine)
      requires params.Valid() && params.dim == ComponentDim(hf) && params.nc == |hf| && params.np == |dhf| && params.sparse
      ensures this.hf == hf && this.dhf == dhf && this.params == params && this.engine == engine
      ensures results == None && du == None
      ensures Valid()
    {
      this.hf := hf;
      this.dhf := dhf;
      this.params := params;
      this.engine := engine;
      results := None;
      du := None;
    }

    /** `__eq__`: hf, dhf and `(nz, omega, t)` agree. */
    predicate Equals(other: FixedSystem)
      reads this, params, other, other.params
    {
      hf == other.hf && dhf == other.dhf &&
      (params.nz, params.omega, params.t) == (other.params.nz, other.params.omega, other.params.t)
    }

    /** `_compute_u`: test the current `nz`, and while `u` is not unitary add
        2 to `nz` and test again.  Every `nz` passed over was solved but not
        unitary; only `nz` changes among the parameters. */
    method ComputeU(fuel: nat) returns (r: Outcome<()>)
      requires Valid()
      modifies this, params
      ensures Valid()
      ensures params.Values() == old(params.Values()).(nz := params.nz)
      ensures params.nz >= old(params.nz) && (params.nz - old(params.nz)) % 2 == 0
      ensures Skipped(engine, hf, old(params.Values()), old(params.nz), (params.nz - old(params.nz)) / 2)
      ensures r.Done? ==> results.Some? && TestNz(engine, hf, params.Values()) == Unitary(results.value)
      ensures r.Raised? ==> TestNz(engine, hf, params.Values()) == Raises(r.error)
      ensures r.OutOfFuel? ==> params.nz == old(params.nz) + 2 * fuel && TestNz(engine, hf, params.Values()) == NotUnitary
      ensures !r.Done? ==> results == old(results) && du == old(du)
      ensures old(results).Some? ==> r.Done? && params.nz == old(params.nz) && results == old(results)
    {
      var test, exhausted, steps := RaiseNzUntilDecided(engine, hf, params, fuel);
      assert (params.nz - old(params.nz)) / 2 == steps;
      if exhausted {
        return OutOfFuel;
      }
      if test.Raises? {
        return Raised(test.error);
      }
      results := Some(test.es);
      return Done(());
    }

    /** The `u` property: the cached `u` when there is one, otherwise
        `_compute_u` first. */
    method U(fuel: nat) returns (r: Outcome<Mat>)
      requires Valid()
      modifies this, params
      ensures Valid()
      ensures old(results).Some? ==> r == Done(old(results).value.u) && unchanged(this, params)
      ensures r.Done? ==> results.Some? && r.value == results.value.u && engine.isUnitary(r.value)
      ensures params.Values() == old(params.Values()).(nz := params.nz) && params.nz >= old(params.nz)
      ensures (params.nz - old(params.nz)) % 2 == 0
      ensures Skipped(engine, hf, old(params.Values()), old(params.nz), (params.nz - old(params.nz)) / 2)
      ensures r.Raised? ==> TestNz(engine, hf, params.Values()) == Raises(r.error)
      ensures r.OutOfFuel? ==> params.nz == old(params.nz) + 2 * fuel && TestNz(engine, hf, params.Values()) == NotUnitary
      ensures !r.Done? ==> results == old(results) && du == old(du)
    {
      if results.Some? {
        return Done(results.value.u);
      }
      var c := ComputeU(fuel);
      if c.Done? {
        r := Done(results.value.u);
      } else {
        r := if c.Raised? then Raised(c.error) else OutOfFuel;
      }
    }

    /** The `du` property and `_compute_du`: the cached `du`, or `u` first
        when it is missing and then dU from the cached eigensystem and the
        parameters as they are after that. */
    method Du(fuel: nat) returns (r: Outcome<seq<Mat>>)
      requires Valid()
      modifies this, params
      ensures Valid()
      ensures old(du).Some? ==> r == Done(old(du).value) && unchanged(this, params)
      ensures old(results).Some? ==> params.Values() == old(params.Values()) && results == old(results)
      ensures r.Done? ==> results.Some? && du == Some(r.value)
      ensures r.Done? ==> r.value == engine.derivative(dhf, results.value, params.Values())
      ensures params.Values() == old(params.Values()).(nz := params.nz) && params.nz >= old(params.nz)
      ensures (params.nz - old(params.nz)) % 2 == 0
      ensures Skipped(engine, hf, old(params.Values()), old(params.nz), (params.nz - old(params.nz)) / 2)
      ensures r.Raised? ==> TestNz(engine, hf, params.Values()) == Raises(r.error)
      ensures r.OutOfFuel? ==> params.nz == old(params.nz) + 2 * fuel && TestNz(engine, hf, params.Values()) == NotUnitary
      ensures !r.Done? ==> results == old(results) && du == old(du)
    {
      if du.Some? {
        return Done(du.value);
      }
      if results.None? {
        var c := ComputeU(fuel);
        if !c.Done? {
          return if c.Raised? then Raised(c.error) else OutOfFuel;
        }
      }
      var d := engine.derivative(dhf, results.value, params.Values());
      du := Some(d);
      return Done(d);
    }
  }

  /** `FixedSystem(hf, dhf, nz, omega, t, decimals, sparse)`: dim, nc and np
      come from the shapes of hf and dhf; `sparse` is not passed on, so the
      parameters always say sparse. */
  method NewFixedSystem(hf: seq<Mat>, dhf: seq<seq<Mat>>, nz: int, omega: real, t: real, decimals: int,
                        sparse: bool, engine: Engine) returns (r: Result<FixedSystem>)
    ensures r.Success? <==> nz % 2 == 1 && |hf| % 2 == 1
    ensures nz % 2 == 0 ==> r == Failure(EvenNz)
    ensures nz % 2 == 1 && |hf| % 2 == 0 ==> r == Failure(EvenNc)
    ensures r.Success? ==> fresh(r.value) && fresh(r.value.params) && r.value.Valid()
    ensures r.Success? ==> r.value.hf == hf && r.value.dhf == dhf && r.value.engine == engine
    ensures r.Success? ==> r.value.params.Values() == ParamValues(ComponentDim(hf), nz, |hf|, |dhf|, omega, t, decimals, true)
    ensures r.Success? ==> r.value.results == None && r.value.du == None
  {
    var p := NewParameters(ComponentDim(hf), nz, |hf|, |dhf|, omega, t, decimals, true);
    if p.Failure? {
      return Failure(p.error);
    }
    var fs := new FixedSystem.Init(hf, dhf, p.value, engine);
    return Success(fs);
  }

  /** Equality ignores only `decimals`: two valid systems that are `==` and
      round alike hold the same parameters. */
  lemma EqualsIgnoresOnlyDecimals(a: FixedSystem, b: FixedSystem)
    requires a.Valid() && b.Valid() && a.Equals(b)
    requires a.params.decimals == b.params.decimals
    ensures a.params.Values() == b.params.Values()
  {
  }
}
