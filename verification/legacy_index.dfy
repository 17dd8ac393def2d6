/** The older, branchy index map of floq/helpers.py.

    Inside the principal range it is the same shift as `Index.NToI`; outside
    it tries to wrap with two explicit branches, and those branches are right
    only for part of the integers: `NToI(7, 7) == -4` and `NToI(-7, 7) == 10`,
    both outside `[0, 7)`.  Its `i_to_n` is the same formula as `Index.IToN`. */
module LegacyIndex {
  import opened PyInt
  import Index

  /** `n_to_i` as written in floq/helpers.py. */
  function NToI(num: int, n: int): int
    requires n != 0
  {
    var cutoff := Index.Cutoff(n);
    if num > cutoff then FloorMod(num, n) - n + cutoff
    else if num < -cutoff then -FloorMod(-num, n) + n + cutoff
    else num + cutoff
  }

  /** On the principal range the legacy map agrees with the wrapping one and
      is inverted by `IToN`. */
  lemma PrincipalAgrees(num: int, n: int)
    requires n > 0 && -Index.Cutoff(n) <= num <= Index.Cutoff(n)
    ensures NToI(num, n) == num + Index.Cutoff(n) == Index.NToI(num, n)
    ensures Index.IToN(NToI(num, n), n) == num
  {
    Index.NToIPrincipal(num, n);
  }

  /** Which inputs the legacy branches get right: for odd `n`, the legacy map
      gives the wrapped index exactly on the principal range, above it when
      `num mod n` exceeds the cutoff, and below it when `(-num) mod n` does. */
  lemma AgreesExactly(num: int, n: int)
    requires n > 0 && n % 2 == 1
    ensures NToI(num, n) == Index.NToI(num, n) <==>
              (-Index.Cutoff(n) <= num <= Index.Cutoff(n)
               || (num > Index.Cutoff(n) && num % n > Index.Cutoff(n))
               || (num < -Index.Cutoff(n) && (-num) % n > Index.Cutoff(n)))
  {
    var c := Index.Cutoff(n);
    assert n == 2 * c + 1;
    if num > c {
      AboveBranch(num, n);
    } else if num < -c {
      BelowBranch(num, n);
    } else {
      Index.NToIPrincipal(num, n);
    }
  }

  /** The legacy map is right exactly when its result is a valid offset. */
  lemma AgreesIffInRange(num: int, n: int)
    requires n > 0 && n % 2 == 1
    ensures NToI(num, n) == Index.NToI(num, n) <==> 0 <= NToI(num, n) < n
  {
    var c := Index.Cutoff(n);
    assert n == 2 * c + 1;
    if num > c {
      AboveBranch(num, n);
    } else if num < -c {
      BelowBranch(num, n);
    } else {
      Index.NToIPrincipal(num, n);
    }
  }

  /** Above the principal range: the legacy result is `num mod n - cutoff - 1`,
      while the wrapped index is `(num mod n + cutoff) mod n`. */
  lemma AboveBranch(num: int, n: int)
    requires n > 0 && n % 2 == 1 && num > Index.Cutoff(n)
    ensures NToI(num, n) == num % n - Index.Cutoff(n) - 1
    ensures num % n > Index.Cutoff(n) ==> Index.NToI(num, n) == NToI(num, n)
    ensures num % n <= Index.Cutoff(n) ==> Index.NToI(num, n) == num % n + Index.Cutoff(n)
  {
    var c := Index.Cutoff(n);
    var q, m := num / n, num % n;
    assert num == q * n + m;
    if m > c {
      DivModUnique(num + c, n, q + 1, m + c - n);
    } else {
      DivModUnique(num + c, n, q, m + c);
    }
  }

  /** Below the principal range: with `m = (-num) mod n` the legacy result is
      `3*cutoff + 1 - m`, while the wrapped index is `(cutoff - m) mod n`. */
  lemma BelowBranch(num: int, n: int)
    requires n > 0 && n % 2 == 1 && num < -Index.Cutoff(n)
    ensures NToI(num, n) == 3 * Index.Cutoff(n) + 1 - (-num) % n
    ensures (-num) % n > Index.Cutoff(n) ==> Index.NToI(num, n) == NToI(num, n)
    ensures (-num) % n <= Index.Cutoff(n) ==> Index.NToI(num, n) == Index.Cutoff(n) - (-num) % n
  {
    var c := Index.Cutoff(n);
    var q, m := (-num) / n, (-num) % n;
    assert -num == q * n + m;
    if m > c {
      DivModUnique(num + c, n, -q - 1, c - m + n);
    } else {
      DivModUnique(num + c, n, -q, c - m);
    }
  }

  /** The inputs that show the defect: one period above and below the
      principal range the legacy map leaves `[0, n)`, where the wrapping map
      gives the centre offset 3. */
  lemma OutOfRangeWitnesses()
    ensures NToI(7, 7) == -4 && Index.NToI(7, 7) == 3
    ensures NToI(-7, 7) == 10 && Index.NToI(-7, 7) == 3
  {
  }

  /** The repository's tests only probe the principal range, where it is right. */
  lemma LegacyExamples()
    ensures NToI(-40, 81) == 0 && NToI(40, 81) == 80
    ensures NToI(0, 81) == 40 && NToI(-3, 81) == 37
  {
  }
}
