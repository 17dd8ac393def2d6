/** `ParametericSystemBase` and `ParametricSystemWithFunctions` of
    floq/museum/uncompiled_floq/parametric_system.py: an earlier form that
    searches for a good `nz` instead of caching.

    `is_nz_ok` builds a core `FixedSystem` for the current `nz` and asks
    the engine whether its `u` is unitary (the code calls
    `ev.evolve_system`, which floq/evolution.py does not define; the engine
    stands for the evolution it means).  An `EigenvalueNumberError` counts
    as "not ok", but any other engine error, a `UsageError` from building
    the system and the base class's `NotImplementedError` pass through.  `increase_nz_until_ok`
    has no bound in the code, so it runs on `fuel` here. */
module MuseumParametric {
  import opened Seqs
  import opened Complex
  import opened Index
  import opened FixedParams
  import opened CoreFixedSystem
  import opened ParametricSystems

  /** The parameters `get_system` gives the fixed system: the shapes of
      `hf` and `dhf`, `nz`, `omega`, `t`, and the defaults `decimals = 10`
      and `sparse = True`. */
  function SystemValues(hf: seq<Mat>, dhf: seq<seq<Mat>>, nz: int, omega: real, t: real): ParamValues
  {
    ParamValues(ComponentDim(hf), nz, |hf|, |dhf|, omega, t, 10, true)
  }

  /** Whether `get_system` builds a fixed system at this `nz`: the source
      has functions, and `nz` and the number of components are odd. */
  predicate Builds(source: Source, controls: seq<real>, omega: real, nz: int)
  {
    source.WithFunctions? && nz % 2 == 1 && |Hf(source, controls, omega).value| % 2 == 1
  }

  /** What `is_nz_ok(controls, t)` does at a given `nz`: only
      `EigenvalueNumberError` is caught. */
  function NzCheck(engine: Engine, source: Source, controls: seq<real>, t: real, omega: real, nz: int): (r: Answer<bool>)
    ensures source.Base? ==> r == Raise(NotImplementedError)
    ensures source.WithFunctions? && nz % 2 == 0 ==> r == Raise(Usage(EvenNz))
    ensures !Builds(source, controls, omega, nz) ==> r.Raise? && !r.raised.Solver?
    ensures Builds(source, controls, omega, nz) ==> r.Value? || r == Raise(Solver(OtherError))
    ensures r == Value(true) <==>
              Builds(source, controls, omega, nz) &&
              TestNz(engine, Hf(source, controls, omega).value,
                     SystemValues(Hf(source, controls, omega).value, Dhf(source, controls, omega).value, nz, omega, t)).Unitary?
    ensures r == Raise(Solver(OtherError)) <==>
              Builds(source, controls, omega, nz) &&
              TestNz(engine, Hf(source, controls, omega).value,
                     SystemValues(Hf(source, controls, omega).value, Dhf(source, controls, omega).value, nz, omega, t)) == Raises(OtherError)
    ensures r.Value? ==> Builds(source, controls, omega, nz)
  {
    match Hf(source, controls, omega)
    case None => Raise(NotImplementedError)
    case Some(hf) =>
      var dhf := Dhf(source, controls, omega).value;
      if nz % 2 == 0 then Raise(Usage(EvenNz))
      else if |hf| % 2 == 0 then Raise(Usage(EvenNc))
      else
        match engine.evolve(hf, SystemValues(hf, dhf, nz, omega, t))
        case Failed(EigenvalueNumberError) => Value(false)
        case Failed(OtherError) => Raise(Solver(OtherError))
        case Solved(es) => Value(engine.isUnitary(es.u))
  }

  /** Whether building the system fails, and how, depends on the parity of
      `nz` only, so the steps of `set_nz`, which keep the parity, meet a
      construction error only if the first check does. */
  lemma RaisesByParity(engine: Engine, source: Source, controls: seq<real>, t: real, omega: real, a: int, b: int)
    requires a % 2 == b % 2
    ensures Builds(source, controls, omega, a) <==> Builds(source, controls, omega, b)
    ensures !Builds(source, controls, omega, a) ==>
              NzCheck(engine, source, controls, t, omega, a) == NzCheck(engine, source, controls, t, omega, b)
  {
  }

  /** `max(10, nz/divisor)`, the coarse step `set_nz` starts with. */
  function CoarseStep(nz: int, divisor: int): (s: int)
    requires divisor > 0
    ensures s >= 10 && s >= nz / divisor
    ensures s == 10 || s == nz / divisor
  {
    if nz / divisor > 10 then nz / divisor else 10
  }

  /** Whether `nz` values `base + k*stride` are not ok, resp. ok. */
  ghost predicate FailedAt(engine: Engine, source: Source, controls: seq<real>, t: real, omega: real,
                           base: int, stride: int, k: int)
  {
    NzCheck(engine, source, controls, t, omega, base + k * stride) == Value(false)
  }

  ghost predicate PassedAt(engine: Engine, source: Source, controls: seq<real>, t: real, omega: real,
                           base: int, stride: int, k: int)
  {
    NzCheck(engine, source, controls, t, omega, base - k * stride) == Value(true)
  }

  /** One more stride adds `stride` to the distance covered, and an even
      stride in either direction keeps the parity. */
  lemma StrideStep(stride: int, steps: nat, nz: int)
    requires stride % 2 == 0
    ensures (steps + 1) * stride == steps * stride + stride
    ensures (nz + stride) % 2 == nz % 2 && (nz - stride) % 2 == nz % 2
  {
  }

  class ParametricSystem {
    const source: Source
    const engine: Engine
    const omega: real
    var nz: int

    constructor (source: Source, engine: Engine, nz: int, omega: real)
      ensures this.source == source && this.engine == engine && this.nz == nz && this.omega == omega
    {
      this.source, this.engine, this.nz, this.omega := source, engine, nz, omega;
    }

    /** `get_system(controls, t)`: a fixed system from the current `nz`,
        `omega` and the given `t`. */
    method GetSystem(controls: seq<real>, t: real) returns (r: Answer<FixedSystem>)
      ensures source.Base? ==> r == Raise(NotImplementedError)
      ensures r.Raise? ==> NzCheck(engine, source, controls, t, omega, nz) == Raise(r.raised)
      ensures source.WithFunctions? ==> (r.Value? <==> nz % 2 == 1 && |Hf(source, controls, omega).value| % 2 == 1)
      ensures r.Value? ==> fresh(r.value) && r.value.Valid() && r.value.engine == engine
      ensures r.Value? ==> Hf(source, controls, omega) == Some(r.value.hf) && Dhf(source, controls, omega) == Some(r.value.dhf)
      ensures r.Value? ==> r.value.params.Values() == SystemValues(r.value.hf, r.value.dhf, nz, omega, t)
    {
      var hf := Hf(source, controls, omega);
      if hf.None? {
        return Raise(NotImplementedError);
      }
      var dhf := Dhf(source, controls, omega);
      var made := NewFixedSystem(hf.value, dhf.value, nz, omega, t, 10, true, engine);
      if made.Failure? {
        return Raise(Usage(made.error));
      }
      return Value(made.value);
    }

    /** `is_nz_ok(controls, t)`. */
    method IsNzOk(controls: seq<real>, t: real) returns (r: Answer<bool>)
      ensures r == NzCheck(engine, source, controls, t, omega, nz)
    {
      var system := GetSystem(controls, t);
      if system.Raise? {
        return Raise(system.raised);
      }
      var fs := system.value;
      match engine.evolve(fs.hf, fs.params.Values())
      case Failed(EigenvalueNumberError) => r := Value(false);
      case Failed(OtherError) => r := Raise(Solver(OtherError));
      case Solved(es) => r := Value(engine.isUnitary(es.u));
    }

    /** `increase_nz_until_ok`: add `make_even(step)` to `nz` until it is
        ok.  Every value passed over was not ok, and the parity of `nz` is
        kept. */
    method IncreaseNzUntilOk(controls: seq<real>, t: real, step: int, fuel: nat)
      returns (r: Answer<()>, ghost steps: nat)
      modifies this
      ensures nz == old(nz) + steps * MakeEven(step)
      ensures nz % 2 == old(nz) % 2
      ensures step >= 0 ==> nz >= old(nz)
      ensures forall k :: 0 <= k < steps ==> FailedAt(engine, source, controls, t, omega, old(nz), MakeEven(step), k)
      ensures r.Value? ==> NzCheck(engine, source, controls, t, omega, nz) == Value(true)
      ensures r.Raise? && !r.raised.OutOfFuel? ==> NzCheck(engine, source, controls, t, omega, nz) == Raise(r.raised)
      ensures r == Raise(Raised.OutOfFuel) ==> steps == fuel
    {
      var stride := MakeEven(step);
      var check := IsNzOk(controls, t);
      var left := fuel;
      steps := 0;
      while check == Value(false)
        invariant nz == old(nz) + steps * stride && steps + left == fuel
        invariant nz % 2 == old(nz) % 2
        invariant check == NzCheck(engine, source, controls, t, omega, nz)
        invariant forall k :: 0 <= k < steps ==> FailedAt(engine, source, controls, t, omega, old(nz), stride, k)
        decreases left
      {
        if left == 0 {
          return Raise(Raised.OutOfFuel), steps;
        }
        assert FailedAt(engine, source, controls, t, omega, old(nz), stride, steps);
        StrideStep(stride, steps, nz);
        nz := nz + stride;
        steps, left := steps + 1, left - 1;
        check := IsNzOk(controls, t);
      }
      if check.Raise? {
        return Raise(check.raised), steps;
      }
      return Value(()), steps;
    }
  
    /** `decrease_nz_until_not_ok`: while `nz` is ok and `nz - step > 3`,
        subtract `make_even(step)`.  Every value passed over was ok, the
        parity is kept, and a lowered `nz` is never below 3. */
    method DecreaseNzUntilNotOk(controls: seq<real>, t: real, step: int)
      returns (r: Answer<()>, ghost steps: nat)
      requires step > 0
      modifies this
      ensures nz == old(nz) - steps * MakeEven(step)
      ensures nz % 2 == old(nz) % 2
      ensures nz <= old(nz) && (nz == old(nz) || nz >= 3)
      ensures forall k :: 0 <= k < steps ==> PassedAt(engine, source, controls, t, omega, old(nz), MakeEven(step), k)
      ensures r.Value? ==> NzCheck(engine, source, controls, t, omega, nz) == Value(false) || nz - step <= 3
      ensures r.Value? ==> NzCheck(engine, source, controls, t, omega, nz).Value?
      ensures r.Raise? ==> NzCheck(engine, source, controls, t, omega, nz) == Raise(r.raised)
    {
      var stride := MakeEven(step);
      var check := IsNzOk(controls, t);
      steps := 0;
      while check == Value(true) && nz - step > 3
        invariant nz == old(nz) - steps * stride
        invariant nz % 2 == old(nz) % 2
        invariant nz <= old(nz) && (nz == old(nz) || nz >= 3)
        invariant check == NzCheck(engine, source, controls, t, omega, nz)
        invariant forall k :: 0 <= k < steps ==> PassedAt(engine, source, controls, t, omega, old(nz), stride, k)
        decreases nz
      {
        assert PassedAt(engine, source, controls, t, omega, old(nz), stride, steps);
        StrideStep(stride, steps, nz);
        nz := nz - stride;
        steps := steps + 1;
        check := IsNzOk(controls, t);
      }
      if check.Raise? {
        return Raise(check.raised), steps;
      }
      return Value(()), steps;
    }

    /** `set_nz(controls, t)`: from an ok `nz`, coarse and then fine steps
        down and a final climb; from a bad one, a coarse climb, a fine step
        down and a final climb.  Every path ends with the climb, so a normal
        return leaves an ok `nz` of the original parity; `nz` never drops
        below 3 unless it started there.  A construction error can only come
        from the first check; after that only the fuel or a solver error
        met at the final `nz` stops it. */
    method SetNz(controls: seq<real>, t: real, fuel: nat) returns (r: Answer<()>)
      modifies this
      ensures nz % 2 == old(nz) % 2
      ensures nz >= old(nz) || nz >= 3
      ensures r.Value? ==> NzCheck(engine, source, controls, t, omega, nz) == Value(true)
      ensures r.Raise? && !r.raised.OutOfFuel? ==> NzCheck(engine, source, controls, t, omega, nz) == Raise(r.raised)
      ensures !Builds(source, controls, omega, old(nz)) ==>
                nz == old(nz) && r.Raise? && NzCheck(engine, source, controls, t, omega, old(nz)) == Raise(r.raised)
      ensures Builds(source, controls, omega, old(nz)) ==>
                r.Value? || r == Raise(Raised.OutOfFuel) || r == Raise(Solver(OtherError))
    {
      var check := IsNzOk(controls, t);
      if check.Raise? {
        return Raise(check.raised);
      }
      ghost var n;
      if check.value {
        r, n := DecreaseNzUntilNotOk(controls, t, CoarseStep(nz, 5));
        RaisesByParity(engine, source, controls, t, omega, old(nz), nz);
        if r.Raise? {
          return;
        }
        r, n := DecreaseNzUntilNotOk(controls, t, CoarseStep(nz, 10));
        RaisesByParity(engine, source, controls, t, omega, old(nz), nz);
        if r.Raise? {
          return;
        }
        r, n := DecreaseNzUntilNotOk(controls, t, 2);
        RaisesByParity(engine, source, controls, t, omega, old(nz), nz);
        if r.Raise? {
          return;
        }
        r, n := IncreaseNzUntilOk(controls, t, 2, fuel);
        RaisesByParity(engine, source, controls, t, omega, old(nz), nz);
      } else {
        r, n := IncreaseNzUntilOk(controls, t, CoarseStep(nz, 5), fuel);
        RaisesByParity(engine, source, controls, t, omega, old(nz), nz);
        if r.Raise? {
          return;
        }
        r, n := DecreaseNzUntilNotOk(controls, t, 2);
        RaisesByParity(engine, source, controls, t, omega, old(nz), nz);
        if r.Raise? {
          return;
        }
        r, n := IncreaseNzUntilOk(controls, t, 2, fuel);
        RaisesByParity(engine, source, controls, t, omega, old(nz), nz);
      }
    }
  }
}
