/** Python 2 integer operators that differ from Dafny's. */
module PyInt {

  /** Python's `a // b`: the quotient rounded down (for a positive divisor
      this is Dafny's `/`). */
  function FloorDiv(a: int, b: int): int
    requires b != 0
  {
    if b > 0 then a / b else (-a) / (-b)
  }

  /** Python's `a % b`: floored, so the result takes the sign of `b`
      (Dafny's `%` is Euclidean and never negative).  With `a // b` it
      splits `a` exactly. */
  function FloorMod(a: int, b: int): (r: int)
    requires b != 0
    ensures b > 0 ==> 0 <= r < b
    ensures b < 0 ==> b < r <= 0
    ensures a == FloorDiv(a, b) * b + r
  {
    if b > 0 then a % b else -((-a) % (-b))
  }

  /** Division with remainder has exactly one answer: `x == q*n + r` with
      `0 <= r < n` pins down `x / n` and `x % n`. */
  lemma DivModUnique(x: int, n: int, q: int, r: int)
    requires n > 0 && 0 <= r < n && x == q * n + r
    ensures x / n == q && x % n == r
  {
    var d := q - x / n;
    assert d * n == x % n - r;
  }

  /** Adding a multiple of a positive modulus does not change the remainder. */
  lemma {:induction false} ModShift(a: int, k: int, n: int)
    requires n > 0
    ensures (a + k * n) % n == a % n
    decreases if k < 0 then -k else k
  {
    if k > 0 {
      ModShift(a, k - 1, n);
      DivModUnique(a + k * n, n, (a + (k - 1) * n) / n + 1, (a + (k - 1) * n) % n);
    } else if k < 0 {
      ModShift(a, k + 1, n);
      DivModUnique(a + k * n, n, (a + (k + 1) * n) / n - 1, (a + (k + 1) * n) % n);
    }
  }
}

/** The signed Fourier/zone index maps of floq/museum/uncompiled_floq/helpers.py
    and of the textually identical copy benchmark/museum_of_forks/p0/helpers/index.py.

    A signed index `num` in `[-(n-1)/2, (n-1)/2]` names a Fourier component or a
    Brillouin zone; `NToI` turns it into an offset in an array of length `n`,
    wrapping any other integer around modulo `n`, and `IToN` goes back. */
module Index {
  import opened PyInt

  /** `(n-1)/2` with Python 2 integer (floor) division. */
  function Cutoff(n: int): int { (n - 1) / 2 }

  function NToI(num: int, n: int): (i: int)
    requires n != 0
    ensures n > 0 ==> 0 <= i < n
    ensures n < 0 ==> n < i <= 0
  {
    FloorMod(num + Cutoff(n), n)
  }

  function IToN(i: int, n: int): int
  {
    i - Cutoff(n)
  }

  function MakeEven(n: int): (r: int)
    ensures r % 2 == 0
    ensures n <= r <= n + 1
    ensures n % 2 == 0 ==> r == n
  {
    if n % 2 == 0 then n else n + 1
  }

  /** On the principal range the map is a plain shift by the cutoff. */
  lemma NToIPrincipal(num: int, n: int)
    requires n > 0 && -Cutoff(n) <= num <= Cutoff(n)
    ensures NToI(num, n) == num + Cutoff(n)
  {
    DivModUnique(num + Cutoff(n), n, 0, num + Cutoff(n));
  }

  /** `NToI` is `n`-periodic in its signed argument. */
  lemma NToIPeriodic(num: int, k: int, n: int)
    requires n > 0
    ensures NToI(num + k * n, n) == NToI(num, n)
  {
    ModShift(num + Cutoff(n), k, n);
  }

  /** Round trip from signed index to offset and back. */
  lemma SignedRoundTrip(num: int, n: int)
    requires n > 0 && -Cutoff(n) <= num <= Cutoff(n)
    ensures IToN(NToI(num, n), n) == num
  {
    NToIPrincipal(num, n);
  }

  /** Round trip from offset to signed index and back. */
  lemma OffsetRoundTrip(i: int, n: int)
    requires n > 0 && 0 <= i < n
    ensures NToI(IToN(i, n), n) == i
  {
    DivModUnique(i, n, 0, i);
  }

  /** For odd `n`, `IToN` maps `[0, n)` onto the symmetric range
      `[-(n-1)/2, (n-1)/2]`: into it, and every signed index is hit. */
  lemma IToNOnto(n: int)
    requires n > 0 && n % 2 == 1
    ensures forall i :: 0 <= i < n ==> -Cutoff(n) <= IToN(i, n) <= Cutoff(n)
    ensures forall num :: -Cutoff(n) <= num <= Cutoff(n) ==>
              0 <= NToI(num, n) < n && IToN(NToI(num, n), n) == num
  {
    forall num | -Cutoff(n) <= num <= Cutoff(n)
      ensures 0 <= NToI(num, n) < n && IToN(NToI(num, n), n) == num
    {
      SignedRoundTrip(num, n);
    }
  }

  lemma MakeEvenIdempotent(n: int)
    ensures MakeEven(MakeEven(n)) == MakeEven(n)
  {
  }

  /** The concrete values the repository's index tests expect. */
  lemma IndexExamples()
    ensures NToI(-40, 81) == 0 && NToI(40, 81) == 80
    ensures NToI(0, 81) == 40 && NToI(-3, 81) == 37
    ensures NToI(5, 7) == NToI(-2, 7) && NToI(5 + 7, 7) == NToI(-2, 7)
    ensures NToI(-6, 7) == NToI(1, 7) && NToI(-6 - 14, 7) == NToI(1, 7)
    ensures IToN(0, 81) == -40 && IToN(80, 81) == 40
    ensures IToN(40, 81) == 0 && IToN(37, 81) == -3
    ensures MakeEven(3) == 4 && MakeEven(4) == 4
  {
  }
}
