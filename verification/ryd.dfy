/** The control part of the Rydberg-atom test problem, tests/ryd.py.

    `update_hf(hf, ncomp, controls, mu, factor)` overwrites, in the caller's
    `(2*ncomp+1) x 16 x 16` array, a fixed set of entries of each component
    `k < ncomp` and of its mirror `-k-1`: the `rabi_a` positions receive
    `-1j*mu*a*0.25*factor` with `a = controls[-2k-2]`, and the `rabi_b`
    positions receive `1j*mu*b*0.25*factor` with `b = controls[-2k-1]`.
    The mirror receives the negated values.  Every other entry, including
    the whole centre component that holds the static Hamiltonian, is left
    alone.  `generate_single_dhf` runs it on zeros with one-hot controls,
    and `generate_dhf` stacks one such slice per control. */
module Rydberg {
  import opened Complex
  import Spin

  /** The (row, column) positions written with `rabi_a` and with `rabi_b`,
      in the order of the assignments in `update_hf`. */
  const PositionsA: seq<(int, int)> := [
    (0, 2), (0, 8), (1, 9), (2, 0), (2, 10), (3, 11), (4, 6), (6, 4),
    (8, 0), (8, 10), (9, 1), (10, 2), (10, 8), (11, 3), (12, 14), (14, 12)]

  const PositionsB: seq<(int, int)> := [
    (0, 3), (0, 12), (1, 13), (2, 14), (3, 0), (3, 15), (4, 7), (7, 4),
    (8, 11), (11, 8), (12, 0), (12, 15), (13, 1), (14, 2), (15, 3), (15, 12)]

  /** Each position set is closed under transposition. */
  lemma TransposeClosedA()
    ensures forall p :: p in PositionsA ==> (p.1, p.0) in PositionsA
  {
  }

  lemma TransposeClosedB()
    ensures forall p :: p in PositionsB ==> (p.1, p.0) in PositionsB
  {
  }

  /** The two sets are disjoint, so no entry receives two values. */
  lemma PositionsDisjoint()
    ensures forall p :: p in PositionsA ==> p !in PositionsB
  {
  }

  function RabiA(mu: real, a: real, factor: real): C { C(0.0, -(mu * a * 0.25 * factor)) }

  function RabiB(mu: real, b: real, factor: real): C { C(0.0, mu * b * 0.25 * factor) }

  /** The pair index a component is written from: `k` for component `k`,
      and also `k` for its mirror `2*ncomp - k`. */
  function PairOf(ncomp: nat, c: nat): nat
    requires c <= 2 * ncomp
  {
    if c < ncomp then c else 2 * ncomp - c
  }

  /** Entry `(c, i, j)` after `update_hf`, given its value `before`. */
  function Updated(before: C, ncomp: nat, controls: seq<real>, mu: real, factor: real, c: nat, i: int, j: int): C
    requires 2 * ncomp <= |controls| && c <= 2 * ncomp
  {
    if c == ncomp then before
    else
      var k := PairOf(ncomp, c);
      var a, b := controls[|controls| - 2 * k - 2], controls[|controls| - 2 * k - 1];
      var v :=
        if (i, j) in PositionsA then RabiA(mu, a, factor)
        else if (i, j) in PositionsB then RabiB(mu, b, factor)
        else before;
      if (i, j) !in PositionsA && (i, j) !in PositionsB then before
      else if c < ncomp then v else Neg(v)
  }

  /** The assignments of one iteration to component `c`: `ra` at every
      `rabi_a` position, then `rb` at every `rabi_b` position (the source
      writes them out one by one). */
  method SetRabiEntries(hf: array3<C>, c: nat, ra: C, rb: C)
    requires c < hf.Length0 && hf.Length1 == 16 && hf.Length2 == 16
    modifies hf
    ensures forall d, i, j :: 0 <= d < hf.Length0 && 0 <= i < 16 && 0 <= j < 16 ==>
              hf[d, i, j] == if d == c && (i, j) in PositionsA then ra
                             else if d == c && (i, j) in PositionsB then rb
                             else old(hf[d, i, j])
  {
    PositionsDisjoint();
    for n := 0 to |PositionsA|
      invariant forall d, i, j :: 0 <= d < hf.Length0 && 0 <= i < 16 && 0 <= j < 16 ==>
                  hf[d, i, j] == if d == c && (i, j) in PositionsA[..n] then ra else old(hf[d, i, j])
    {
      var (i, j) := PositionsA[n];
      assert PositionsA[..n + 1] == PositionsA[..n] + [(i, j)];
      hf[c, i, j] := ra;
    }
    assert PositionsA[..|PositionsA|] == PositionsA;
    for n := 0 to |PositionsB|
      invariant forall d, i, j :: 0 <= d < hf.Length0 && 0 <= i < 16 && 0 <= j < 16 ==>
                  hf[d, i, j] == if d == c && (i, j) in PositionsB[..n] then rb
                                 else if d == c && (i, j) in PositionsA then ra
                                 else old(hf[d, i, j])
    {
      var (i, j) := PositionsB[n];
      assert PositionsB[..n + 1] == PositionsB[..n] + [(i, j)];
      hf[c, i, j] := rb;
    }
    assert PositionsB[..|PositionsB|] == PositionsB;
  }

  /** `update_hf`: component `k` and its mirror `nc-1-k` for each pair. */
  method UpdateHf(hf: array3<C>, ncomp: nat, controls: seq<real>, mu: real, factor: real)
    requires hf.Length0 == 2 * ncomp + 1 && hf.Length1 == 16 && hf.Length2 == 16
    requires 2 * ncomp <= |controls|
    modifies hf
    ensures forall c, i, j :: 0 <= c < hf.Length0 && 0 <= i < 16 && 0 <= j < 16 ==>
              hf[c, i, j] == Updated(old(hf[c, i, j]), ncomp, controls, mu, factor, c, i, j)
  {
    var nc := 2 * ncomp + 1;
    for k := 0 to ncomp
      invariant forall c, i, j :: 0 <= c < nc && 0 <= i < 16 && 0 <= j < 16 ==>
                  hf[c, i, j] == if c < k || nc - k <= c
                                 then Updated(old(hf[c, i, j]), ncomp, controls, mu, factor, c, i, j)
                                 else old(hf[c, i, j])
    {
      var a := controls[|controls| - 2 * k - 2];
      var b := controls[|controls| - 2 * k - 1];
      var ra, rb := RabiA(mu, a, factor), RabiB(mu, b, factor);
      SetRabiEntries(hf, k, ra, rb);
      SetRabiEntries(hf, nc - 1 - k, Neg(ra), Neg(rb));
    }
  }

  /** `update_hf` never writes the centre component, so the static
      Hamiltonian stored there survives. */
  lemma UpdateKeepsCentre(before: C, ncomp: nat, controls: seq<real>, mu: real, factor: real, i: int, j: int)
    requires 2 * ncomp <= |controls|
    ensures Updated(before, ncomp, controls, mu, factor, ncomp, i, j) == before
  {
  }

  /** Entries outside the listed positions are left as they were. */
  lemma UpdateKeepsOthers(before: C, ncomp: nat, controls: seq<real>, mu: real, factor: real, c: nat, i: int, j: int)
    requires 2 * ncomp <= |controls| && c <= 2 * ncomp
    requires (i, j) !in PositionsA && (i, j) !in PositionsB
    ensures Updated(before, ncomp, controls, mu, factor, c, i, j) == before
  {
  }

  /** Every written entry of the mirror component is the negation of the
      same entry of component `k`. */
  lemma UpdateAntisymmetric(x: C, y: C, ncomp: nat, controls: seq<real>, mu: real, factor: real, k: nat, i: int, j: int)
    requires 2 * ncomp <= |controls| && k < ncomp
    requires (i, j) in PositionsA || (i, j) in PositionsB
    ensures Updated(x, ncomp, controls, mu, factor, 2 * ncomp - k, i, j) ==
              Neg(Updated(y, ncomp, controls, mu, factor, k, i, j))
  {
    PositionsDisjoint();
  }

  /** Within a component, an entry and its transpose receive the same value. */
  lemma UpdateSymmetric(x: C, y: C, ncomp: nat, controls: seq<real>, mu: real, factor: real, c: nat, i: int, j: int)
    requires 2 * ncomp <= |controls| && c <= 2 * ncomp && c != ncomp
    requires (i, j) in PositionsA || (i, j) in PositionsB
    ensures Updated(x, ncomp, controls, mu, factor, c, i, j) == Updated(y, ncomp, controls, mu, factor, c, j, i)
  {
    TransposeClosedA();
    TransposeClosedB();
    PositionsDisjoint();
    assert (i, j) in PositionsA ==> (j, i) in PositionsA;
    assert (i, j) in PositionsB ==> (j, i) in PositionsB;
  }

  /** `generate_single_dhf(mu, ncomp, index, factor)`: `update_hf` on a zero
      array with the one-hot controls for `index`. */
  method GenerateSingleDhf(mu: real, ncomp: nat, index: nat, factor: real) returns (dhf: array3<C>)
    requires index < 2 * ncomp
    ensures fresh(dhf)
    ensures dhf.Length0 == 2 * ncomp + 1 && dhf.Length1 == 16 && dhf.Length2 == 16
    ensures forall c, i, j :: 0 <= c < dhf.Length0 && 0 <= i < 16 && 0 <= j < 16 ==>
              dhf[c, i, j] == Updated(Zero, ncomp, Spin.OneHot(2 * ncomp, index), mu, factor, c, i, j)
  {
    dhf := new C[2 * ncomp + 1, 16, 16]((c, i, j) => Zero);
    var controls := Spin.OneHot(2 * ncomp, index);
    UpdateHf(dhf, ncomp, controls, mu, factor);
  }

  /** `dhf[index] = slice`: channel `ch` of `dhf` becomes `slice`. */
  method CopyChannel(dhf: array4<C>, ch: nat, slice: array3<C>)
    requires ch < dhf.Length0
    requires slice.Length0 == dhf.Length1 && slice.Length1 == dhf.Length2 && slice.Length2 == dhf.Length3
    modifies dhf
    ensures forall e, c, i, j :: 0 <= e < dhf.Length0 && 0 <= c < dhf.Length1 && 0 <= i < dhf.Length2 && 0 <= j < dhf.Length3 ==>
              dhf[e, c, i, j] == if e == ch then slice[c, i, j] else old(dhf[e, c, i, j])
  {
    for c := 0 to dhf.Length1
      invariant forall e, c', i, j :: 0 <= e < dhf.Length0 && 0 <= c' < dhf.Length1 && 0 <= i < dhf.Length2 && 0 <= j < dhf.Length3 ==>
                  dhf[e, c', i, j] == if e == ch && c' < c then slice[c', i, j] else old(dhf[e, c', i, j])
    {
      for i := 0 to dhf.Length2
        invariant forall e, c', i', j :: 0 <= e < dhf.Length0 && 0 <= c' < dhf.Length1 && 0 <= i' < dhf.Length2 && 0 <= j < dhf.Length3 ==>
                    dhf[e, c', i', j] == if e == ch && (c' < c || (c' == c && i' < i)) then slice[c', i', j] else old(dhf[e, c', i', j])
      {
        for j := 0 to dhf.Length3
          invariant forall e, c', i', j' :: 0 <= e < dhf.Length0 && 0 <= c' < dhf.Length1 && 0 <= i' < dhf.Length2 && 0 <= j' < dhf.Length3 ==>
                      dhf[e, c', i', j'] == if e == ch && (c' < c || (c' == c && i' < i) || (c' == c && i' == i && j' < j))
                                            then slice[c', i', j'] else old(dhf[e, c', i', j'])
        {
          dhf[ch, c, i, j] := slice[c, i, j];
        }
      }
    }
  }

  /** `generate_dhf(ncomp, mu, factor)`: channel `ch` is the single dhf of
      control `ch`. */
  method GenerateDhf(ncomp: nat, mu: real, factor: real) returns (dhf: array4<C>)
    ensures fresh(dhf)
    ensures dhf.Length0 == 2 * ncomp && dhf.Length1 == 2 * ncomp + 1 && dhf.Length2 == 16 && dhf.Length3 == 16
    ensures forall ch, c, i, j :: 0 <= ch < 2 * ncomp && 0 <= c < 2 * ncomp + 1 && 0 <= i < 16 && 0 <= j < 16 ==>
              dhf[ch, c, i, j] == Updated(Zero, ncomp, Spin.OneHot(2 * ncomp, ch), mu, factor, c, i, j)
  {
    var npm, nc := 2 * ncomp, 2 * ncomp + 1;
    dhf := new C[npm, nc, 16, 16]((ch, c, i, j) => Zero);
    for index := 0 to npm
      invariant forall ch, c, i, j :: 0 <= ch < index && 0 <= c < nc && 0 <= i < 16 && 0 <= j < 16 ==>
                  dhf[ch, c, i, j] == Updated(Zero, ncomp, Spin.OneHot(2 * ncomp, ch), mu, factor, c, i, j)
    {
      var slice := GenerateSingleDhf(mu, ncomp, index, factor);
      CopyChannel(dhf, index, slice);
    }
  }

  /** The Hamiltonian is linear in the controls, so each written entry is
      its control times the same entry of that control's dhf slice. */
  lemma DhfIsCoefficient(ncomp: nat, controls: seq<real>, mu: real, factor: real, c: nat, i: int, j: int)
    requires |controls| == 2 * ncomp && c <= 2 * ncomp && c != ncomp
    requires (i, j) in PositionsA || (i, j) in PositionsB
    ensures var k := PairOf(ncomp, c);
            var ch := if (i, j) in PositionsA then 2 * ncomp - 2 * k - 2 else 2 * ncomp - 2 * k - 1;
            Updated(Zero, ncomp, controls, mu, factor, c, i, j) ==
              Scale(controls[ch], Updated(Zero, ncomp, Spin.OneHot(2 * ncomp, ch), mu, factor, c, i, j))
  {
    var k := PairOf(ncomp, c);
    var ch := if (i, j) in PositionsA then 2 * ncomp - 2 * k - 2 else 2 * ncomp - 2 * k - 1;
    var x := controls[ch];
    assert x * -(mu * 1.0 * 0.25 * factor) == -(mu * x * 0.25 * factor);
    assert x * (mu * 1.0 * 0.25 * factor) == mu * x * 0.25 * factor;
    assert x * -0.0 == 0.0 && x * 0.0 == 0.0;
    assert x * -(-(mu * 1.0 * 0.25 * factor)) == -(-(mu * x * 0.25 * factor));
    assert x * -(mu * 1.0 * 0.25 * factor) == -(mu * x * 0.25 * factor);
  }
}
