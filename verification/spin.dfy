/** The Fourier-space Hamiltonian of one driven spin, floq/core/spin.py.

    `hf(ncomp, freq, controls)` has `nc = 2*ncomp + 1` components of size
    2x2.  For each `k < ncomp` the controls `a = controls[-2k-2]` and
    `b = controls[-2k-1]` give the off-diagonal coupling of component `k`,
    component `nc-1-k` holds its negation, and the centre component `ncomp`
    is `diag(freq/2, -freq/2)`.  `dhf(ncomp, amp)` has one channel per
    control, holding `amp` times that control's coefficient in `hf`. */
module Spin {
  import opened Complex

  function M2(a: C, b: C, c: C, d: C): Mat { [[a, b], [c, d]] }

  /** The component placed at `k` for the controls `a`, `b`:
      `0.25*(1j*a + b)` above the diagonal, `0.25*(1j*a - b)` below. */
  function Coupling(a: real, b: real): Mat
  {
    M2(Zero, C(0.25 * b, 0.25 * a), C(-0.25 * b, 0.25 * a), Zero)
  }

  function Centre(freq: real): Mat
  {
    M2(Real(freq / 2.0), Zero, Zero, Real(-freq / 2.0))
  }

  /** `controls[-2k-2]` and `controls[-2k-1]`: Python's negative indices
      count from the end, so the pairs are read in reverse. */
  function ControlA(controls: seq<real>, k: nat): real
    requires 2 * k + 2 <= |controls|
  {
    controls[|controls| - 2 * k - 2]
  }

  function ControlB(controls: seq<real>, k: nat): real
    requires 2 * k + 2 <= |controls|
  {
    controls[|controls| - 2 * k - 1]
  }

  /** Component `c` of `hf`. */
  function HfComponent(ncomp: nat, freq: real, controls: seq<real>, c: nat): (m: Mat)
    requires 2 * ncomp <= |controls| && c <= 2 * ncomp
    ensures |m| == 2 && |m[0]| == 2 && |m[1]| == 2
  {
    if c < ncomp then Coupling(ControlA(controls, c), ControlB(controls, c))
    else if c == ncomp then Centre(freq)
    else MatNeg(Coupling(ControlA(controls, 2 * ncomp - c), ControlB(controls, 2 * ncomp - c)))
  }

  /** The layout of `hf`, component by component. */
  function HfSpec(ncomp: nat, freq: real, controls: seq<real>): (h: seq<Mat>)
    requires 2 * ncomp <= |controls|
    ensures |h| == 2 * ncomp + 1
    ensures forall c :: 0 <= c < |h| ==> |h[c]| == 2 && |h[c][0]| == 2 && |h[c][1]| == 2
  {
    seq(2 * ncomp + 1, c requires 0 <= c < 2 * ncomp + 1 => HfComponent(ncomp, freq, controls, c))
  }

  /** The components of a `nc x 2 x 2` buffer as matrices. */
  function Components(a: array3<C>): seq<Mat>
    reads a
  {
    seq(a.Length0, c requires 0 <= c < a.Length0 reads a =>
      seq(a.Length1, i requires 0 <= i < a.Length1 reads a =>
        seq(a.Length2, j requires 0 <= j < a.Length2 reads a => a[c, i, j])))
  }

  lemma ComponentsEqual(a: array3<C>, s: seq<Mat>)
    requires a.Length0 == |s| && a.Length1 == 2 && a.Length2 == 2
    requires forall c :: 0 <= c < |s| ==> |s[c]| == 2 && |s[c][0]| == 2 && |s[c][1]| == 2
    requires forall c, i, j :: 0 <= c < |s| && 0 <= i < 2 && 0 <= j < 2 ==> a[c, i, j] == s[c][i][j]
    ensures Components(a) == s
  {
    forall c | 0 <= c < |s|
      ensures Components(a)[c] == s[c]
    {
      assert forall i | 0 <= i < 2 :: Components(a)[c][i] == s[c][i];
    }
  }

  /** `hf[c, :, :] = m` for a 2x2 matrix `m`: component `c` is replaced and
      no other entry changes. */
  method SetComponent(hf: array3<C>, c: nat, m: Mat)
    requires c < hf.Length0 && hf.Length1 == 2 && hf.Length2 == 2 && IsMatrix(m, 2, 2)
    modifies hf
    ensures forall d, i, j :: 0 <= d < hf.Length0 && 0 <= i < 2 && 0 <= j < 2 ==>
              hf[d, i, j] == if d == c then m[i][j] else old(hf[d, i, j])
  {
    hf[c, 0, 0] := m[0][0];
    hf[c, 0, 1] := m[0][1];
    hf[c, 1, 0] := m[1][0];
    hf[c, 1, 1] := m[1][1];
  }

  /** The outer `k` components at each end of `hf` hold the layout and the
      rest are still zero. */
  ghost predicate FilledPairs(hf: array3<C>, spec: seq<Mat>, k: nat)
    requires hf.Length1 == 2 && hf.Length2 == 2 && |spec| == hf.Length0
    requires forall c :: 0 <= c < |spec| ==> |spec[c]| == 2 && |spec[c][0]| == 2 && |spec[c][1]| == 2
    reads hf
  {
    forall c, i, j :: 0 <= c < hf.Length0 && 0 <= i < 2 && 0 <= j < 2 ==>
      hf[c, i, j] == if c < k || hf.Length0 - k <= c then spec[c][i][j] else Zero
  }

  /** One pass of the loop of `hf`: component `k` and its mirror image. */
  method SetPair(hf: array3<C>, ncomp: nat, freq: real, controls: seq<real>, k: nat)
    requires 2 * ncomp <= |controls| && k < ncomp
    requires hf.Length0 == 2 * ncomp + 1 && hf.Length1 == 2 && hf.Length2 == 2
    requires FilledPairs(hf, HfSpec(ncomp, freq, controls), k)
    modifies hf
    ensures FilledPairs(hf, HfSpec(ncomp, freq, controls), k + 1)
  {
    ghost var spec := HfSpec(ncomp, freq, controls);
    var a, b := ControlA(controls, k), ControlB(controls, k);
    assert spec[k] == Coupling(a, b) && spec[2 * ncomp - k] == MatNeg(Coupling(a, b));
    SetComponent(hf, k, Coupling(a, b));
    SetComponent(hf, 2 * ncomp - k, MatNeg(Coupling(a, b)));
  }

  /** `hf(ncomp, freq, controls)`: a zero buffer, filled pair by pair from
      both ends, then the centre. */
  method Hf(ncomp: nat, freq: real, controls: seq<real>) returns (hf: array3<C>)
    requires 2 * ncomp <= |controls|
    ensures fresh(hf)
    ensures hf.Length0 == 2 * ncomp + 1 && hf.Length1 == 2 && hf.Length2 == 2
    ensures Components(hf) == HfSpec(ncomp, freq, controls)
  {
    var nc := 2 * ncomp + 1;
    ghost var spec := HfSpec(ncomp, freq, controls);
    hf := new C[nc, 2, 2]((c, i, j) => Zero);
    for k := 0 to ncomp
      invariant FilledPairs(hf, spec, k)
    {
      SetPair(hf, ncomp, freq, controls, k);
    }
    assert spec[ncomp] == Centre(freq);
    SetComponent(hf, ncomp, Centre(freq));
    ComponentsEqual(hf, spec);
  }

  /** The shape of `hf` and its centre `diag(freq/2, -freq/2)`. */
  lemma HfCentre(ncomp: nat, freq: real, controls: seq<real>)
    requires 2 * ncomp <= |controls|
    ensures forall c :: 0 <= c < 2 * ncomp + 1 ==> IsMatrix(HfSpec(ncomp, freq, controls)[c], 2, 2)
    ensures HfSpec(ncomp, freq, controls)[ncomp] == M2(Real(freq / 2.0), Zero, Zero, Real(-freq / 2.0))
  {
    assert HfSpec(ncomp, freq, controls)[ncomp] == Centre(freq);
  }

  /** Component `nc-1-k` is the negation of component `k`, and every
      component but the centre has a zero diagonal. */
  lemma HfAntisymmetric(ncomp: nat, freq: real, controls: seq<real>)
    requires 2 * ncomp <= |controls|
    ensures forall k :: 0 <= k < ncomp ==>
              HfSpec(ncomp, freq, controls)[2 * ncomp - k] == MatNeg(HfSpec(ncomp, freq, controls)[k])
    ensures forall c, i :: 0 <= c < 2 * ncomp + 1 && c != ncomp && 0 <= i < 2 ==>
              HfSpec(ncomp, freq, controls)[c][i][i] == Zero
  {
    var h := HfSpec(ncomp, freq, controls);
    forall k | 0 <= k < ncomp
      ensures h[2 * ncomp - k] == MatNeg(h[k])
    {
      assert h[k] == Coupling(ControlA(controls, k), ControlB(controls, k));
    }
    forall c, i | 0 <= c < 2 * ncomp + 1 && c != ncomp && 0 <= i < 2
      ensures h[c][i][i] == Zero
    {
      var k := if c < ncomp then c else 2 * ncomp - c;
      var m := Coupling(ControlA(controls, k), ControlB(controls, k));
      assert h[c] == if c < ncomp then m else MatNeg(m);
    }
  }

  /** Component `k` reads the pair of controls that ends `2k` places from
      the end: `0.25*(b + 1j*a)` above the diagonal. */
  lemma HfReadsReversedPairs(ncomp: nat, freq: real, controls: seq<real>, k: nat)
    requires 2 * ncomp <= |controls| && k < ncomp
    ensures HfSpec(ncomp, freq, controls)[k][0][1] ==
              C(0.25 * controls[|controls| - 2 * k - 1], 0.25 * controls[|controls| - 2 * k - 2])
    ensures HfSpec(ncomp, freq, controls)[k][1][0] ==
              C(-0.25 * controls[|controls| - 2 * k - 1], 0.25 * controls[|controls| - 2 * k - 2])
  {
  }

  /** The derivative of the coupling with respect to `a`, and to `b`. */
  function UnitA(amp: real): Mat { M2(Zero, C(0.0, 0.25 * amp), C(0.0, 0.25 * amp), Zero) }

  function UnitB(amp: real): Mat { M2(Zero, C(0.25 * amp, 0.0), C(-0.25 * amp, 0.0), Zero) }

  /** Channel `ch` of `dhf` at component `c`: the `a` channel of pair `k`
      is `2*ncomp - 2k - 2` (index `-2k-2`), the `b` channel the next one;
      each is nonzero only at components `k` and `2*ncomp - k`. */
  function DhfEntry(ncomp: nat, amp: real, ch: nat, c: nat): Mat
  {
    var k := if c < ncomp then c else 2 * ncomp - c;
    var sign := if c < ncomp then (m: Mat) => m else (m: Mat) => MatNeg(m);
    if c == ncomp || 2 * ncomp < c then M2(Zero, Zero, Zero, Zero)
    else if ch + 2 * k + 2 == 2 * ncomp then sign(UnitA(amp))
    else if ch + 2 * k + 1 == 2 * ncomp then sign(UnitB(amp))
    else M2(Zero, Zero, Zero, Zero)
  }

  function DhfSpec(ncomp: nat, amp: real): (d: seq<seq<Mat>>)
    ensures |d| == 2 * ncomp && forall ch :: 0 <= ch < 2 * ncomp ==> |d[ch]| == 2 * ncomp + 1
  {
    seq(2 * ncomp, ch requires 0 <= ch < 2 * ncomp => seq(2 * ncomp + 1, c requires 0 <= c < 2 * ncomp + 1 => DhfEntry(ncomp, amp, ch, c)))
  }

  /** The channels of a `npm x nc x 2 x 2` buffer. */
  function Channels(a: array4<C>): seq<seq<Mat>>
    reads a
  {
    seq(a.Length0, ch requires 0 <= ch < a.Length0 reads a =>
      seq(a.Length1, c requires 0 <= c < a.Length1 reads a =>
        seq(a.Length2, i requires 0 <= i < a.Length2 reads a =>
          seq(a.Length3, j requires 0 <= j < a.Length3 reads a => a[ch, c, i, j]))))
  }

  lemma ChannelsEqual(a: array4<C>, s: seq<seq<Mat>>, nc: nat)
    requires a.Length0 == |s| && a.Length1 == nc && a.Length2 == 2 && a.Length3 == 2
    requires forall ch :: 0 <= ch < |s| ==> |s[ch]| == nc
    requires forall ch, c :: 0 <= ch < |s| && 0 <= c < nc ==> |s[ch][c]| == 2 && |s[ch][c][0]| == 2 && |s[ch][c][1]| == 2
    requires forall ch, c, i, j :: 0 <= ch < |s| && 0 <= c < nc && 0 <= i < 2 && 0 <= j < 2 ==>
               a[ch, c, i, j] == s[ch][c][i][j]
    ensures Channels(a) == s
  {
    forall ch | 0 <= ch < |s|
      ensures Channels(a)[ch] == s[ch]
    {
      forall c | 0 <= c < nc
        ensures Channels(a)[ch][c] == s[ch][c]
      {
        assert forall i | 0 <= i < 2 :: Channels(a)[ch][c][i] == s[ch][c][i];
      }
    }
  }

  /** `dhf[ch, c, :, :] = m`: one component of one channel is replaced. */
  method SetChannelComponent(dhf: array4<C>, ch: nat, c: nat, m: Mat)
    requires ch < dhf.Length0 && c < dhf.Length1 && dhf.Length2 == 2 && dhf.Length3 == 2 && IsMatrix(m, 2, 2)
    modifies dhf
    ensures forall e, d, i, j :: 0 <= e < dhf.Length0 && 0 <= d < dhf.Length1 && 0 <= i < 2 && 0 <= j < 2 ==>
              dhf[e, d, i, j] == if e == ch && d == c then m[i][j] else old(dhf[e, d, i, j])
  {
    dhf[ch, c, 0, 0] := m[0][0];
    dhf[ch, c, 0, 1] := m[0][1];
    dhf[ch, c, 1, 0] := m[1][0];
    dhf[ch, c, 1, 1] := m[1][1];
  }

  /** `dhf(ncomp, amp)`: a zero buffer with the four nonzero matrices of
      pair `k` written per iteration. */
  method Dhf(ncomp: nat, amp: real) returns (dhf: array4<C>)
    ensures fresh(dhf)
    ensures dhf.Length0 == 2 * ncomp && dhf.Length1 == 2 * ncomp + 1 && dhf.Length2 == 2 && dhf.Length3 == 2
    ensures Channels(dhf) == DhfSpec(ncomp, amp)
  {
    var nc, npm := 2 * ncomp + 1, 2 * ncomp;
    dhf := new C[npm, nc, 2, 2]((ch, c, i, j) => Zero);
    for k := 0 to ncomp
      invariant forall ch, c, i, j :: 0 <= ch < npm && 0 <= c < nc && 0 <= i < 2 && 0 <= j < 2 ==>
                  dhf[ch, c, i, j] == if npm - 2 * k <= ch then DhfEntry(ncomp, amp, ch, c)[i][j] else Zero
    {
      var ia, ib := npm - 2 * k - 2, npm - 2 * k - 1;
      SetChannelComponent(dhf, ia, k, UnitA(amp));
      SetChannelComponent(dhf, ia, nc - 1 - k, MatNeg(UnitA(amp)));
      SetChannelComponent(dhf, ib, k, UnitB(amp));
      SetChannelComponent(dhf, ib, nc - 1 - k, MatNeg(UnitB(amp)));
    }
    ChannelsEqual(dhf, DhfSpec(ncomp, amp), nc);
  }

  /** One-hot controls: 1 at `ch`, 0 elsewhere. */
  function OneHot(n: nat, ch: nat): (v: seq<real>)
    ensures |v| == n
  {
    seq(n, i => if i == ch then 1.0 else 0.0)
  }

  function Zero2(): Mat { M2(Zero, Zero, Zero, Zero) }

  lemma Ext2(m: Mat)
    requires |m| == 2 && |m[0]| == 2 && |m[1]| == 2
    ensures m == M2(m[0][0], m[0][1], m[1][0], m[1][1])
  {
    assert m[0] == [m[0][0], m[0][1]];
    assert m[1] == [m[1][0], m[1][1]];
  }

  /** Scaling a coupling whose controls are 0 or 1 picks out a unit. */
  lemma ScaleUnitA(amp: real)
    ensures MatScale(amp, Coupling(1.0, 0.0)) == UnitA(amp)
  {
    Ext2(MatScale(amp, Coupling(1.0, 0.0)));
  }

  lemma ScaleUnitB(amp: real)
    ensures MatScale(amp, Coupling(0.0, 1.0)) == UnitB(amp)
  {
    Ext2(MatScale(amp, Coupling(0.0, 1.0)));
  }

  lemma ScaleNoCoupling(amp: real)
    ensures MatScale(amp, Coupling(0.0, 0.0)) == Zero2()
  {
    Ext2(MatScale(amp, Coupling(0.0, 0.0)));
  }

  lemma ScaleNegEntry(amp: real, e: C)
    ensures Scale(amp, Neg(e)) == Neg(Scale(amp, e))
  {
    assert amp * -e.re == -(amp * e.re) && amp * -e.im == -(amp * e.im);
  }

  /** Scaling commutes with negation on 2x2 matrices. */
  lemma ScaleNeg(amp: real, m: Mat)
    requires |m| == 2 && |m[0]| == 2 && |m[1]| == 2
    ensures MatScale(amp, MatNeg(m)) == MatNeg(MatScale(amp, m))
  {
    var t := MatScale(amp, MatNeg(m));
    var u := MatNeg(MatScale(amp, m));
    ScaleNegEntry(amp, m[0][0]);
    ScaleNegEntry(amp, m[0][1]);
    ScaleNegEntry(amp, m[1][0]);
    ScaleNegEntry(amp, m[1][1]);
    Ext2(t);
    Ext2(u);
  }

  lemma NegZero2()
    ensures MatNeg(Zero2()) == Zero2()
  {
    var u := MatNeg(Zero2());
    Ext2(u);
  }

  lemma ScaleCentre(amp: real)
    ensures MatScale(amp, Centre(0.0)) == Zero2()
  {
    var s := MatScale(amp, Centre(0.0));
    Ext2(s);
  }

  /** `dhf` is the derivative of `hf`: channel `ch` is `amp` times `hf`
      evaluated at the one-hot controls for `ch` with zero detuning. */
  lemma DhfIsCoefficient(ncomp: nat, amp: real, ch: nat, c: nat)
    requires ch < 2 * ncomp && c < 2 * ncomp + 1
    ensures DhfSpec(ncomp, amp)[ch][c] == MatScale(amp, HfSpec(ncomp, 0.0, OneHot(2 * ncomp, ch))[c])
  {
    var v := OneHot(2 * ncomp, ch);
    var h := HfSpec(ncomp, 0.0, v)[c];
    if c == ncomp {
      assert h == Centre(0.0);
      ScaleCentre(amp);
    } else {
      var k := if c < ncomp then c else 2 * ncomp - c;
      var x, y := ControlA(v, k), ControlB(v, k);
      assert x == (if ch + 2 * k + 2 == 2 * ncomp then 1.0 else 0.0);
      assert y == (if ch + 2 * k + 1 == 2 * ncomp then 1.0 else 0.0);
      assert h == if c < ncomp then Coupling(x, y) else MatNeg(Coupling(x, y));
      ScaleNeg(amp, Coupling(x, y));
      if x == 1.0 {
        ScaleUnitA(amp);
      } else if y == 1.0 {
        ScaleUnitB(amp);
      } else {
        ScaleNoCoupling(amp);
        NegZero2();
      }
    }
  }

  /** The two-pair case of the repository's spin test: `controls = (a1, b1,
      a2, b2)` puts the second pair at component 0 and the first at 1. */
  lemma SpinExample()
    ensures HfSpec(2, 2.5, [1.2, 2.3, 3.4, 5.4]) ==
              [Coupling(3.4, 5.4), Coupling(1.2, 2.3), Centre(2.5),
               MatNeg(Coupling(1.2, 2.3)), MatNeg(Coupling(3.4, 5.4))]
  {
  }
}
