/** `ParametericSystemBase` and `ParametricSystemWithFunctions` of
    floq/systems/parametric_system.py: a system with open control
    parameters.  `u(controls, t)` and `du(controls, t)` build a core
    `FixedSystem` for the controls, remember the key `(controls, t)`, and
    feed the fixed system's final `nz` back into `self.nz`.

    The key is recorded before `hf` is built.  A rebuild that then raises
    leaves the key recorded and keeps the previous fixed system, so the
    next call with the same key is answered from that older system.  Such a
    call raises `AttributeError` instead when no system was ever built. */
module ParametricSystems {
  import opened Seqs
  import opened Complex
  import opened FixedParams
  import opened CoreFixedSystem

  /** The data structure handed to the `hf` and `dhf` callables. */
  type Parameters = map<string, real>

  /** Where `_hf` and `_dhf` come from: the base class raises
      `NotImplementedError`; the function-backed subclass calls its
      callables with the controls, its parameters and `omega`. */
  datatype Source =
    | Base
    | WithFunctions(hf: (seq<real>, Parameters, real) -> seq<Mat>,
                    dhf: (seq<real>, Parameters, real) -> seq<seq<Mat>>,
                    parameters: Parameters)

  datatype Raised =
    | NotImplementedError
    | Usage(error: UsageError)
    | Solver(cause: EngineError)
    | AttributeError
    | OutOfFuel

  datatype Answer<T> = Value(value: T) | Raise(raised: Raised)

  /** `_hf(controls)`. */
  function Hf(s: Source, controls: seq<real>, omega: real): Option<seq<Mat>>
  {
    if s.Base? then None else Some(s.hf(controls, s.parameters, omega))
  }

  /** `_dhf(controls)`. */
  function Dhf(s: Source, controls: seq<real>, omega: real): Option<seq<seq<Mat>>>
  {
    if s.Base? then None else Some(s.dhf(controls, s.parameters, omega))
  }

  function Lift<T>(o: Outcome<T>): (r: Answer<T>)
    ensures r.Value? <==> o.Done?
    ensures o.Done? ==> r.value == o.value
    ensures o.Raised? <==> r.Raise? && r.raised.Solver?
    ensures o.Raised? ==> r.raised.cause == o.error
    ensures o.OutOfFuel? <==> r == Raise(Raised.OutOfFuel)
  {
    match o
    case Done(v) => Value(v)
    case Raised(e) => Raise(Solver(e))
    case OutOfFuel => Raise(Raised.OutOfFuel)
  }

  class ParametricSystem {
    const source: Source
    const engine: Engine
    const omega: real
    const t: real
    var nz: int
    var last: Option<(seq<real>, real)>
    var fixed: FixedSystem?

    /** The objects the current fixed system consists of. */
    function Footprint(): set<object>
      reads this
    {
      if fixed == null then {} else {fixed, fixed.params}
    }

    /** The fixed system, when there is one, is consistent and was built
        with this system's engine, `omega` and `t`. */
    ghost predicate Valid()
      reads this, Footprint()
    {
      fixed != null ==>
        fixed.Valid() && fixed.engine == engine &&
        fixed.params.omega == omega && fixed.params.t == t
    }

    /** A system as the subclass's `__init__` leaves it, no call made yet. */
    constructor (source: Source, engine: Engine, nz: int, omega: real, t: real)
      ensures this.source == source && this.engine == engine
      ensures this.nz == nz && this.omega == omega && this.t == t
      ensures last == None && fixed == null
      ensures Valid()
    {
      this.source, this.engine := source, engine;
      this.nz, this.omega, this.t := nz, omega, t;
      last, fixed := None, null;
    }

    /** The cache-miss branch shared by `u` and `du`: record the key, build
        `hf` and `dhf`, and construct a `FixedSystem` with the current `nz`,
        `omega` and `self.t` (the argument `t` is only a key). */
    method Rebuild(controls: seq<real>, t: real) returns (err: Option<Raised>)
      requires Valid()
      modifies this
      ensures Valid()
      ensures last == Some((controls, t)) && nz == old(nz)
      ensures source.Base? ==> err == Some(NotImplementedError)
      ensures err.Some? ==> err.value.NotImplementedError? || err.value.Usage?
      ensures err.None? ==> fresh(fixed) && fresh(fixed.params)
      ensures err.None? ==> Hf(source, controls, omega) == Some(fixed.hf) && Dhf(source, controls, omega) == Some(fixed.dhf)
      ensures err.None? ==> fixed.params.nz == nz && fixed.params.t == this.t && fixed.results.None?
      ensures err.Some? ==> fixed == old(fixed)
      ensures source.WithFunctions? ==>
                (err.None? <==> nz % 2 == 1 && |Hf(source, controls, omega).value| % 2 == 1)
    {
      last := Some((controls, t));
      var hf := Hf(source, controls, omega);
      if hf.None? {
        return Some(NotImplementedError);
      }
      var dhf := Dhf(source, controls, omega);
      var made := NewFixedSystem(hf.value, dhf.value, nz, omega, this.t, 10, true, engine);
      if made.Failure? {
        return Some(Usage(made.error));
      }
      fixed := made.value;
      return None;
    }

    /** `u(controls, t)`.  A repeated key is answered by the fixed system
        already held, with `nz` and the key left alone; a new key rebuilds,
        and a successful evaluation copies the fixed system's final `nz`. */
    method U(controls: seq<real>, t: real, fuel: nat) returns (r: Answer<Mat>)
      requires Valid()
      modifies this, Footprint()
      ensures Valid()
      ensures nz >= old(nz)
      ensures old(last) == Some((controls, t)) ==> nz == old(nz) && last == old(last) && fixed == old(fixed)
      ensures old(last) == Some((controls, t)) && old(fixed) == null ==> r == Raise(AttributeError)
      ensures old(last) != Some((controls, t)) ==> last == Some((controls, t))
      ensures old(last) != Some((controls, t)) && r.Value? ==>
                fresh(fixed) && nz == fixed.params.nz && Hf(source, controls, omega) == Some(fixed.hf)
      ensures r.Value? ==> fixed != null && fixed.results.Some? && r.value == fixed.results.value.u
      ensures r.Value? ==> engine.isUnitary(r.value)
      ensures r.Raise? ==> nz == old(nz)
      ensures old(last) != Some((controls, t)) && r.Raise? && (r.raised.NotImplementedError? || r.raised.Usage?) ==>
                fixed == old(fixed)
      ensures r.Raise? && r.raised.Solver? ==>
                fixed != null && TestNz(engine, fixed.hf, fixed.params.Values()) == Raises(r.raised.cause)
      ensures r == Raise(Raised.OutOfFuel) ==>
                fixed != null && TestNz(engine, fixed.hf, fixed.params.Values()) == NotUnitary
    {
      if last == Some((controls, t)) {
        if fixed == null {
          return Raise(AttributeError);
        }
        var o := fixed.U(fuel);
        return Lift(o);
      }
      var err := Rebuild(controls, t);
      if err.Some? {
        return Raise(err.value);
      }
      var o := fixed.U(fuel);
      if o.Done? {
        nz := fixed.params.nz;
      }
      return Lift(o);
    }

    /** `du(controls, t)`: the same caching around the fixed system's `du`. */
    method Du(controls: seq<real>, t: real, fuel: nat) returns (r: Answer<seq<Mat>>)
      requires Valid()
      modifies this, Footprint()
      ensures Valid()
      ensures nz >= old(nz)
      ensures old(last) == Some((controls, t)) ==> nz == old(nz) && last == old(last) && fixed == old(fixed)
      ensures old(last) == Some((controls, t)) && old(fixed) == null ==> r == Raise(AttributeError)
      ensures old(last) != Some((controls, t)) ==> last == Some((controls, t))
      ensures old(last) != Some((controls, t)) && r.Value? ==>
                fresh(fixed) && nz == fixed.params.nz && Dhf(source, controls, omega) == Some(fixed.dhf)
      ensures r.Value? ==> fixed != null && fixed.results.Some? && fixed.du == Some(r.value)
      ensures r.Value? ==> r.value == engine.derivative(fixed.dhf, fixed.results.value, fixed.params.Values())
      ensures r.Raise? ==> nz == old(nz)
      ensures old(last) != Some((controls, t)) && r.Raise? && (r.raised.NotImplementedError? || r.raised.Usage?) ==>
                fixed == old(fixed)
      ensures r.Raise? && r.raised.Solver? ==>
                fixed != null && TestNz(engine, fixed.hf, fixed.params.Values()) == Raises(r.raised.cause)
      ensures r == Raise(Raised.OutOfFuel) ==>
                fixed != null && TestNz(engine, fixed.hf, fixed.params.Values()) == NotUnitary
    {
      if last == Some((controls, t)) {
        if fixed == null {
          return Raise(AttributeError);
        }
        var o := fixed.Du(fuel);
        return Lift(o);
      }
      var err := Rebuild(controls, t);
      if err.Some? {
        return Raise(err.value);
      }
      var o := fixed.Du(fuel);
      if o.Done? {
        nz := fixed.params.nz;
      }
      return Lift(o);
    }
  }
}
