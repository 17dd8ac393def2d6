# floq: discrete core of a Floquet propagator library

floq computes the time-evolution operator `U` of a periodically driven
quantum system, and its derivative `dU` with respect to the control
amplitudes, by Floquet theory. The Fourier components `hf` of the
Hamiltonian are assembled into a large block matrix `K` (`nz` Brillouin
zones of side `dim`). Its eigensystem is reduced to `dim` quasi-energies.
The number of zones `nz` grows until the resulting `U` is unitary.

This Dafny project models the exact, discrete logic around that numerical
core:

- the signed Fourier/zone index maps, and the older branchy copy;
- block access into block matrices;
- the assembly of `K` and `dK`;
- trimming and de-duplicating eigenvalues, and selecting eigenvectors;
- splitting and summing zone components, and the slot arithmetic of the `dU` sum;
- the parameter objects with their odd-`nz` invariant (four versions);
- the lazily evaluated `FixedSystem` and its adaptive `nz` loop;
- the caching parametric systems and the museum's up/down `nz` search;
- the Fourier Hamiltonian layouts of the spin and Rydberg systems;
- list partitioning for the worker pool.

**Modelling choices**

- Complex numbers are `C(re, im)` over `real`, and matrices are sequences of rows.
- Arrays that the source fills in place are Dafny `array2`, `array3` or `array4`.
- Python 2 integer `/` and `%` are floor operations. They are written out where a divisor can be negative (`PyInt.FloorMod`).
- Eigen-solving, the exponentials of the `U` and `dU` formulas, and the unitarity test belong to an `Engine` value of deterministic functions. Rounding to `decimals` places is a function parameter `rnd`.
- Loops that the code does not bound take a `fuel` argument and report `OutOfFuel` when it runs out. These are the `nz` loops of `FixedSystem._compute_u` and of `increase_nz_until_ok`.

Module layout:

| file | module | source |
|---|---|---|
| seqs.dfy | `Seqs` | optional values, `min`/`max`, list concatenation |
| index.dfy | `PyInt`, `Index` | floq/museum/uncompiled_floq/helpers.py, benchmark/museum_of_forks/p0/helpers/index.py |
| legacy_index.dfy | `LegacyIndex` | floq/helpers.py |
| complex.dfy | `Complex` | complex entries and matrix helpers |
| blockmatrix.dfy | `BlockMatrix` | floq/blockmatrix.py |
| numpy_replacements.dfy | `NumpyReplacements` | benchmark/museum_of_forks/p0/helpers/numpy_replacements.py |
| assemble.dfy | `Assemble` | floq/core/evolution.py (K, dK) |
| eigen.dfy | `Eigen` | floq/core/evolution.py (trim, unique values, index lookup) |
| zones.dfy | `Zones` | floq/core/evolution.py (components, phi, eigensystem, dU slots) |
| params.dfy | `FixedParams` | `FixedSystemParameters` of floq/core/fixed_system.py and of the museum copy |
| core_system.dfy | `CoreFixedSystem` | `FixedSystem` of floq/core/fixed_system.py |
| museum_system.dfy | `MuseumFixedSystem` | benchmark/museum_of_evolution/uncompiled_floq/fixed_system.py |
| legacy_system.dfy | `LegacySystem` | floq/fixed_system.py, floq/floquet_problem.py |
| parametric.dfy | `ParametricSystems` | floq/systems/parametric_system.py |
| museum_parametric.dfy | `MuseumParametric` | floq/museum/uncompiled_floq/parametric_system.py |
| spin.dfy | `Spin` | floq/core/spin.py |
| ryd.dfy | `Rydberg` | tests/ryd.py |
| worker.dfy | `Worker` | `chunks` of floq/parallel/worker.py |

## Model

| member | source | states |
|---|---|---|
| PyInt.FloorMod | floq/museum/uncompiled_floq/helpers.py:16 | Python's `%`: the remainder lies in `[0, b)` for positive `b` and in `(b, 0]` for negative `b`, and `a == (a // b)*b + a % b` with Python's floor quotient |
| Index.NToI | floq/museum/uncompiled_floq/helpers.py:4-16 | `n_to_i(num, n)` lands in `[0, n)` for every integer `num` when `n > 0` (in `(n, 0]` when `n < 0`) |
| Index.NToIPrincipal | benchmark/museum_of_forks/p0/helpers/index.py:17-18 | on the principal range `|num| <= (n-1)/2`, `n_to_i(num, n) == num + (n-1)/2` |
| Index.NToIPeriodic | floq/museum/uncompiled_floq/helpers.py:15-16 | `n_to_i(num + k*n, n) == n_to_i(num, n)` for every integer `k` |
| Index.SignedRoundTrip | floq/museum/uncompiled_floq/helpers.py:15-28 | `i_to_n(n_to_i(num, n), n) == num` on the principal range |
| Index.OffsetRoundTrip | benchmark/museum_of_forks/p0/helpers/index.py:17-31 | `n_to_i(i_to_n(i, n), n) == i` for every offset `i` in `[0, n)` |
| Index.IToNOnto | floq/museum/uncompiled_floq/helpers.py:27-28 | for odd `n`, `i_to_n` maps `[0, n)` into `[-(n-1)/2, (n-1)/2]` and hits every value there |
| Index.MakeEven | floq/museum/uncompiled_floq/helpers.py:38-42 | `make_even(n)` is even, lies in `[n, n+1]`, and is `n` when `n` is even |
| Index.MakeEvenIdempotent | benchmark/museum_of_forks/p0/helpers/index.py:34-39 | `make_even(make_even(n)) == make_even(n)` |
| Index.IndexExamples | tests/helpers/test_index.py:8-53 | the concrete values the index tests expect, e.g. `n_to_i(-40, 81) == 0` and `i_to_n(0, 81) == -40` |
| LegacyIndex.PrincipalAgrees | floq/helpers.py:12-18 | on the principal range the branchy `n_to_i` returns `num + cutoff`, agrees with the wrapping map, and is inverted by `i_to_n` |
| LegacyIndex.AboveBranch | floq/helpers.py:13-14 | above the cutoff the result is `num mod n - cutoff - 1`; it is the wrapped index exactly when `num mod n > cutoff` |
| LegacyIndex.BelowBranch | floq/helpers.py:15-16 | below `-cutoff` the result is `3*cutoff + 1 - (-num) mod n`; it is the wrapped index exactly when `(-num) mod n > cutoff` |
| LegacyIndex.AgreesExactly | floq/helpers.py:12-18 | for odd `n`, the legacy map equals the wrapping map if and only if `num` is in the principal range or the applicable branch condition holds |
| LegacyIndex.AgreesIffInRange | floq/helpers.py:12-18 | for odd `n`, the legacy map is right if and only if its result is a valid offset in `[0, n)` |
| LegacyIndex.OutOfRangeWitnesses | floq/helpers.py:12-18 | `n_to_i(7, 7) == -4` and `n_to_i(-7, 7) == 10`, where the wrapping map gives 3 |
| LegacyIndex.LegacyExamples | tests/test_helpers.py:8-18 | the principal-range values the legacy tests expect |
| BlockMatrix.GetBlock | floq/blockmatrix.py:4-11 | the block is `d x d`, and entry `(a, c)` is matrix entry `(row*d + a, col*d + c)` |
| BlockMatrix.SetBlock | floq/blockmatrix.py:14-21 | the rectangle of block `(row, col)` holds `block` and every other entry is unchanged |
| BlockMatrix.GetAfterSet | floq/blockmatrix.py:4-21 | reading back a block just written gives that block |
| BlockMatrix.BlocksDisjoint | floq/blockmatrix.py:15-21 | two distinct blocks share no entry |
| BlockMatrix.WritesCommute | floq/blockmatrix.py:15-21 | writes to two different blocks can be done in either order |
| BlockMatrix.ReconstructPrefix | tests/test_blockmatrix.py:72-84 | after the first `n` row-major block writes, exactly the entries of blocks numbered below `n` hold the target |
| BlockMatrix.Reconstruct | tests/test_blockmatrix.py:72-84 | writing all `n_block^2` blocks of a matrix into any matrix of its shape reproduces it |
| NumpyReplacements.Zeros2 | benchmark/museum_of_forks/p0/helpers/numpy_replacements.py:6-9 | a fresh `rows x cols` buffer whose every entry is zero |
| NumpyReplacements.Zeros1 | benchmark/museum_of_forks/p0/helpers/numpy_replacements.py:6-9 | a fresh vector of the requested length, all zero |
| NumpyReplacements.Outer | benchmark/museum_of_forks/p0/helpers/numpy_replacements.py:13-20 | shape `len(a) x len(b)` and entry `(i, j)` is `a[i]*b[j]` |
| Assemble.DiagonalWalk | floq/core/evolution.py:79-99 | the `while` loop for Fourier index `n` visits exactly the grid blocks with row minus column `n`, `max(0, nz - |n|)` of them |
| Assemble.WrittenOnce | floq/core/evolution.py:80-96 | no block is written twice: the step for diagonal `n` and row `row` writes block `(row, row - n)`, which no earlier step placed, and places nothing else |
| Assemble.AssembleK | floq/core/evolution.py:67-101 | the buffer filled diagonal by diagonal equals the Floquet matrix `KSpec` |
| Assemble.KBlocks | floq/core/evolution.py:79-99 | an off-diagonal block within the band is `hf[n_to_i(r-c, nc)]`; a diagonal block is `hf[n_to_i(0, nc)] + omega*i_to_n(r, nz)*I`; a block outside the band is zero |
| Assemble.ShiftedByZero | floq/core/evolution.py:93 | with `omega == 0` the diagonal shift vanishes |
| Assemble.AssembleDk | floq/core/evolution.py:111-116 | channel `c` of dK is K assembled from `dhf[c]` with `omega = 0` |
| Assemble.DkBlocks | floq/core/evolution.py:104-116 | every in-band block of a dK channel is a plain component of `dhf[c]`, with no diagonal shift |
| Eigen.Sort | floq/core/evolution.py:164-166 | the sorted eigenpairs are a permutation of the input, ordered by eigenvalue |
| Eigen.TrimWindow | floq/core/evolution.py:168-176 | `0 <= left <= right <= k_dim`; the window holds `min(2*dim, k_dim)` values and starts at `k_dim/2 - dim` when full |
| Eigen.TrimEigensystem | floq/core/evolution.py:159-176 | `min(2*dim, k_dim)` pairs, exactly the window `[left, right)` of the pairs sorted by eigenvalue; sorted, a sub-multiset of the input pairs, and the value at position `q` is the `(left + q)`-th smallest eigenvalue: at most `left + q` eigenvalues lie strictly below it and more than `left + q` at or below it |
| Eigen.CountPerm | floq/core/evolution.py:164-166 | counting eigenvalues below a bound does not depend on their order |
| Eigen.CountSorted | floq/core/evolution.py:164-166 | in a sorted sequence the element at position `j` has at most `j` elements strictly below it and more than `j` at or below it |
| Eigen.SortedRank | floq/core/evolution.py:164-166 | in any reordering of the eigenpairs sorted by eigenvalue, the eigenvalue at position `j` has at most `j` input eigenvalues strictly below it and more than `j` at or below it |
| Eigen.Unique | floq/core/evolution.py:187 | `np.unique`: the same set of values, strictly increasing |
| Eigen.RealMod | floq/core/evolution.py:184 | `np.mod`: the remainder lies in `[0, w)` for positive `w` and in `(w, 0]` for negative `w`, and `v` minus it is `floor(v/w)` whole multiples of `w` |
| Eigen.Candidates | floq/core/evolution.py:184-191 | one candidate per distinct rounded residue, each the folded residue of some eigenvalue, and the folded residue of every eigenvalue among them |
| Eigen.FindUniqueVals | floq/core/evolution.py:179-196 | `EigenvalueNumberError` if and only if the number of distinct rounded residues is not `dim`; otherwise `dim` sorted values that are exactly the folded residues of the eigenvalues (each value is one, and every eigenvalue's is present) |
| Eigen.ShiftInvariant | floq/core/evolution.py:184-196 | adding whole multiples of `omega` to the eigenvalues leaves the result unchanged |
| Eigen.ExactQuasiEnergies | floq/core/evolution.py:184-196 | with exact rounding and `omega > 0`, the quasi-energies are strictly increasing and lie in `(-omega/2, omega/2]` |
| Eigen.FirstIndexOf | floq/core/evolution.py:130 | `np.where(xs == x)[0][0]`: the first position holding `x`, and `IndexError` if and only if `x` does not occur |
| Eigen.SelectIndices | floq/core/evolution.py:129-130 | for each unique value, the first index whose rounded eigenvalue equals it; fails with `IndexError` if and only if some value has none |
| Zones.Split | floq/core/evolution.py:203 | `np.split(v, n)`: `n` pieces of length `len(v)/n`, and an error if and only if `n` does not divide the length |
| Zones.SplitFlatten | floq/core/evolution.py:199-203 | the pieces concatenated give back the vector |
| Zones.SeparateComponents | floq/core/evolution.py:199-203 | every vector is split into `n` components of length `len(v)/n` whose concatenation is the vector; fails, with the split error, if and only if some split fails |
| Zones.VecSumAppend | floq/core/evolution.py:221-223 | summing two runs of components adds their sums |
| Zones.AddInto | floq/core/evolution.py:222 | `result += v`: the new vector is the entrywise sum |
| Zones.SumComponents | floq/core/evolution.py:217-223 | the returned vector is the sum of the zone components |
| Zones.CalculatePhi | floq/core/evolution.py:207-215 | row `i` of phi is the sum of the zone components of eigenvector `i` |
| Zones.FindEigensystem | floq/core/evolution.py:120-135 | `EigenvalueNumberError` if and only if `find_unique_vals` raises it; `IndexError` if and only if some quasi-energy is not among the rounded eigenvalues; success if and only if, besides, every looked-up eigenvector splits into `nz` components; then the values are `find_unique_vals` and each vector is the zone-split of the eigenvector at the first position whose rounded eigenvalue is that value |
| Zones.LookupIsFirst | floq/core/evolution.py:129-130 | the positions the lookup finds are exactly the first positions of the quasi-energies among the rounded eigenvalues |
| Zones.SplitOutcome | floq/core/evolution.py:132-133 | splitting the looked-up eigenvectors succeeds if and only if each of them splits, and otherwise raises the split error |
| Zones.FactorSlot | floq/core/evolution.py:286-287 | for `|dn| <= 2*nz_max`, slot `n_to_i(dn, 2*nz)` is `dn + nz - 1`, inside `[0, 2*nz-2]` |
| Zones.DuSlot | floq/core/evolution.py:303-308 | the slot `assemble_du` reads for zones `n1, n2` is the one `calculate_factors` wrote for `n1 - n2` |
| Zones.SlotsDistinct | floq/core/evolution.py:284-287 | distinct zone differences get distinct slots |
| Zones.MirrorZone | floq/core/evolution.py:306 | `n_to_i(-n2, nz)` is a valid zone index and, for odd `nz`, the mirror of `n_to_i(n2, nz)` |
| FixedParams.ZoneRange | floq/core/fixed_system.py:170-173 | `[nz_min, nz_max]` has `nz` members and is symmetric about zero if and only if `nz` is odd |
| FixedParams.FixedSystemParameters.Blank | floq/core/fixed_system.py:134-137 | the object starts with `dim`, `nz` and `nc` at 0 |
| FixedParams.FixedSystemParameters.SetNz | floq/core/fixed_system.py:164-173 | an even value raises `UsageError` and changes nothing; an odd one is stored with `k_dim == dim*nz`, `nz_max`, `nz_min`; the invariant is kept; the museum copy (benchmark/museum_of_evolution/uncompiled_floq/fixed_system.py:112-121) is the same |
| FixedParams.FixedSystemParameters.SetNc | floq/core/fixed_system.py:180-188 | an even value raises `UsageError` and changes nothing; an odd one is stored with `nc_max`, `nc_min`; the invariant is kept; the museum copy (benchmark/museum_of_evolution/uncompiled_floq/fixed_system.py:128-136) is the same |
| FixedParams.FixedSystemParameters.SetDim | floq/core/fixed_system.py:194-197 | `dim` is stored and `k_dim == nz*dim`; the invariant is kept; the museum copy (benchmark/museum_of_evolution/uncompiled_floq/fixed_system.py:142-145) is the same |
| FixedParams.FixedSystemParameters.GrowNz | floq/core/fixed_system.py:79 | `params.nz += 2` from a valid state cannot fail and keeps the invariant |
| FixedParams.NewParameters | floq/core/fixed_system.py:134-149 | success if and only if `nz` and `nc` are odd (an even `nz` is reported first); on success the invariant holds and the values are the arguments; the museum copy (benchmark/museum_of_evolution/uncompiled_floq/fixed_system.py:82-97) is the same |
| CoreFixedSystem.TestNz | floq/core/fixed_system.py:85-93 | unitary if and only if the engine solves and its `u` passes the test; raises if and only if the engine raises, and then the engine's error (`EigenvalueNumberError` or another) |
| CoreFixedSystem.FixedSystem.Init | floq/core/fixed_system.py:32-45 | all caches empty and the object valid |
| CoreFixedSystem.NewFixedSystem | floq/core/fixed_system.py:32-45 | dim, nc and np come from the shapes; `sparse` is always true; success if and only if `nz` and `nc` are odd |
| CoreFixedSystem.EqualsIgnoresOnlyDecimals | floq/core/fixed_system.py:47-54 | two valid `==` systems that round alike hold identical parameters |
| CoreFixedSystem.RaiseNzUntilDecided | floq/core/fixed_system.py:77-81 | `nz` rises by 2 per failed test and only `nz` changes; every `nz` passed over was not unitary; it stops at the first answer other than not-unitary, or when `fuel` runs out |
| CoreFixedSystem.FixedSystem.ComputeU | floq/core/fixed_system.py:74-83 | only `nz` changes, by a multiple of 2 upwards; every `nz` passed over was not unitary; on success the cached results belong to the final `nz`; an engine error passes through |
| CoreFixedSystem.FixedSystem.U | floq/core/fixed_system.py:56-62 | a cached `u` is returned with nothing changed; otherwise only `nz` changes, upwards by a multiple of 2, and every `nz` passed over was not unitary; the computed `u` is unitary and cached; an engine error is the one the test raises at the final `nz` and leaves both caches as they were |
| CoreFixedSystem.FixedSystem.Du | floq/core/fixed_system.py:65-100 | a cached `du` is returned with nothing changed; otherwise `u` is computed first if needed and `du` is the engine's derivative at the final parameters; every `nz` passed over was not unitary; an engine error is the one the test raises at the final `nz` and leaves both caches as they were |
| MuseumFixedSystem.FixedSystem.Init | benchmark/museum_of_evolution/uncompiled_floq/fixed_system.py:29-38 | given a valid parameter object whose dim, nc and np are the shapes of hf and dhf, the object is valid and holds the given hf, dhf and parameters |
| MuseumFixedSystem.NewFixedSystem | benchmark/museum_of_evolution/uncompiled_floq/fixed_system.py:29-38 | dim, nc and np come from the shapes; success if and only if `nz` and `nc` are odd |
| MuseumFixedSystem.EqualsIgnoresRounding | benchmark/museum_of_evolution/uncompiled_floq/fixed_system.py:40-47 | two valid `==` systems differ at most in `decimals` and `sparse` |
| LegacySystem.DerivedRange | floq/floquet_problem.py:48-53 | `nz_min == -nz_max` for odd `nz`, `nz_min == -nz_max - 1` for even `nz`, and the range always has `nz` members |
| LegacySystem.FixedSystem.SetNz | floq/fixed_system.py:50-58 | an even value raises `UsageError` and changes nothing; an odd one is stored with its derived fields |
| LegacySystem.FixedSystem.SetDim | floq/fixed_system.py:67-70 | `k_dim == nz*dim` afterwards and the invariant is kept |
| LegacySystem.NewFixedSystem | floq/fixed_system.py:26-41 | fails with `UsageError` if and only if `nz` is even; otherwise `k_dim == dim*nz`, with dim, nc and np from the shapes |
| LegacySystem.OptionalParameters.SetNz | floq/fixed_system.py:102-108 | `nz` is stored; the derived fields are written only when `dim` is known; `TypeError` if and only if `dim` is known and the value is `None`; `FloquetProblemParameters` (floq/floquet_problem.py:97-103) repeats it |
| LegacySystem.OptionalParameters.SetDim | floq/fixed_system.py:117-121 | `dim` is stored; `k_dim` is re-derived only when `nz` is known; `TypeError` if and only if `nz` is known and the value is `None` |
| LegacySystem.NewOptionalParameters | floq/fixed_system.py:78-92 | `TypeError` if and only if `dim` is given and `nz` is not; otherwise the derived fields exist exactly when `dim` does; `FloquetProblemParameters` (floq/floquet_problem.py:73-87) repeats it |
| LegacySystem.FloquetProblem.SetNz | floq/floquet_problem.py:48-53 | every value, even ones included, is stored with `k_dim == dim*nz`, `nz_max`, `nz_min` |
| LegacySystem.FloquetProblem.SetDim | floq/floquet_problem.py:62-65 | `k_dim == nz*dim` afterwards |
| LegacySystem.FloquetProblem.constructor | floq/floquet_problem.py:24-39 | dim, nc and np come from the shapes and `k_dim == dim*nz` |
| ParametricSystems.ParametricSystem.constructor | floq/systems/parametric_system.py:70-83 | a system with no key recorded and no fixed system |
| ParametricSystems.ParametricSystem.Rebuild | floq/systems/parametric_system.py:36-42 | the key is recorded first; on success a fresh fixed system is built from `hf`, `dhf`, the current `nz` and `self.t`; on failure the old one is kept |
| ParametricSystems.ParametricSystem.U | floq/systems/parametric_system.py:33-46 | a repeated key changes neither `nz` nor the key nor the fixed system; a new key is recorded; on success `nz` is the fixed system's final `nz`, `u` is unitary, and `nz` never decreases; on any error `nz` is unchanged, a failed build keeps the old fixed system, and a solver error is the one the fixed system's test raises at its final `nz` |
| ParametricSystems.ParametricSystem.Du | floq/systems/parametric_system.py:49-62 | the same caching for `du`; on success the result is the engine's derivative for the fixed system; on any error `nz` is unchanged, a failed build keeps the old fixed system, and a solver error is the one the fixed system's test raises at its final `nz` |
| MuseumParametric.NzCheck | floq/museum/uncompiled_floq/parametric_system.py:22-29 | true if and only if the system builds, the engine solves, and `u` is unitary; false on `EigenvalueNumberError`; any other engine error passes through; the base class and an even `nz` raise a construction error |
| MuseumParametric.RaisesByParity | floq/museum/uncompiled_floq/parametric_system.py:84-87 | whether the system builds, and the construction error when it does not, depend only on the parity of `nz` |
| MuseumParametric.CoarseStep | floq/museum/uncompiled_floq/parametric_system.py:34-39 | `max(10, nz/divisor)`: at least 10 and at least `nz/divisor`, and equal to one of them |
| MuseumParametric.ParametricSystem.GetSystem | floq/museum/uncompiled_floq/parametric_system.py:84-87 | a fresh valid fixed system from `hf`, `dhf`, the current `nz`, `omega` and the given `t`; its errors are those of the check |
| MuseumParametric.ParametricSystem.IsNzOk | floq/museum/uncompiled_floq/parametric_system.py:22-29 | the answer is the check at the current `nz` |
| MuseumParametric.ParametricSystem.IncreaseNzUntilOk | floq/museum/uncompiled_floq/parametric_system.py:44-46 | `nz` moves by `make_even(step)` per iteration, keeps its parity, and never shrinks for `step >= 0`; every value passed over failed; on return the check holds |
| MuseumParametric.ParametricSystem.DecreaseNzUntilNotOk | floq/museum/uncompiled_floq/parametric_system.py:49-51 | `nz` keeps its parity, only shrinks, and never drops below 3; every value passed over was ok; it stops at a failing `nz` or at the bound |
| MuseumParametric.ParametricSystem.SetNz | floq/museum/uncompiled_floq/parametric_system.py:32-41 | parity is kept, `nz` does not drop below `min(nz, 3)`, and on success the check holds at the final `nz`; a construction error comes only from the first check and leaves `nz` alone; otherwise it ends ok, out of fuel, or with an engine error that the check at the final `nz` raises |
| Spin.HfSpec | floq/core/spin.py:10-12 | `2*ncomp + 1` components of size `2 x 2` |
| Spin.Hf | floq/core/spin.py:5-33 | the buffer filled in the loop holds exactly `HfSpec` |
| Spin.HfCentre | floq/core/spin.py:29-31 | the centre component is `diag(freq/2, -freq/2)` |
| Spin.HfAntisymmetric | floq/core/spin.py:23-27 | `hf[nc-1-k] == -hf[k]`, and every non-centre component has a zero diagonal |
| Spin.HfReadsReversedPairs | floq/core/spin.py:14-18 | component `k` reads `a = controls[-2k-2]` and `b = controls[-2k-1]` |
| Spin.DhfSpec | floq/core/spin.py:40-42 | `2*ncomp` channels of `2*ncomp + 1` components |
| Spin.Dhf | floq/core/spin.py:36-58 | the buffer filled in the loop holds exactly `DhfSpec` |
| Spin.DhfIsCoefficient | floq/core/spin.py:44-56 | channel `ch` of dhf is `amp` times the `hf` of the one-hot controls for `ch` at zero detuning |
| Spin.SpinExample | tests/core/test_spin.py:7-21 | the layout for two components and four controls, component by component |
| Rydberg.TransposeClosedA | tests/ryd.py:84-147 | the positions written with `rabi_a` are closed under transpose |
| Rydberg.TransposeClosedB | tests/ryd.py:84-147 | the positions written with `rabi_b` are closed under transpose |
| Rydberg.PositionsDisjoint | tests/ryd.py:84-147 | no position receives both `rabi_a` and `rabi_b` |
| Rydberg.SetRabiEntries | tests/ryd.py:84-147 | component `c` gets `ra` at the `rabi_a` positions and `rb` at the `rabi_b` positions; nothing else changes |
| Rydberg.UpdateHf | tests/ryd.py:60-149 | every entry of `hf` becomes `Updated` of its old value |
| Rydberg.UpdateKeepsCentre | tests/ryd.py:75-147 | component `ncomp` is never written |
| Rydberg.UpdateKeepsOthers | tests/ryd.py:84-147 | entries outside the listed positions keep their value |
| Rydberg.UpdateAntisymmetric | tests/ryd.py:84-147 | every written entry of component `-k-1` is the negation of the same entry of component `k` |
| Rydberg.UpdateSymmetric | tests/ryd.py:84-147 | within a component, a written entry and its transpose receive the same value |
| Rydberg.GenerateSingleDhf | tests/ryd.py:182-193 | `update_hf` applied to zeros with the one-hot controls for `index` |
| Rydberg.CopyChannel | tests/ryd.py:177 | channel `ch` becomes the slice; every other channel is unchanged |
| Rydberg.GenerateDhf | tests/ryd.py:170-179 | channel `ch` is the single dhf of control `ch` |
| Rydberg.DhfIsCoefficient | tests/ryd.py:182-193 | each written entry is its control times the same entry of that control's one-hot update |
| Worker.Chunks | floq/parallel/worker.py:92-100 | `ZeroDivisionError` if and only if `n == 0`; no pieces for negative `n`; otherwise exactly `n` pieces |
| Worker.StartClosedForm | floq/parallel/worker.py:99-100 | piece `i` begins at `i*k + min(i, m)` with `k, m = divmod(len(l), n)` |
| Worker.ChunkLengths | floq/parallel/worker.py:99-100 | the first `m` pieces have `k + 1` elements and the rest `k` |
| Worker.ChunksBalanced | floq/parallel/worker.py:100 | piece lengths differ by at most one, and never grow from left to right |
| Worker.ChunksContiguous | floq/parallel/worker.py:100 | piece `i` begins where piece `i - 1` ends |
| Worker.FlattenPrefix | floq/parallel/worker.py:99-100 | the first `i` pieces concatenated are the prefix of `l` up to where piece `i` begins |
| Worker.ChunksFlatten | floq/parallel/worker.py:99-100 | concatenating the pieces in order gives back `l` |
| Worker.ChunksExample | floq/parallel/worker.py:99-100 | `chunks(range(10), 3)` is `[[0,1,2,3],[4,5,6],[7,8,9]]` |

## Left out

- Eigen-solving (`compute_eigensystem`), the exponentials of `calculate_psi`, `calculate_u`, `integral_factors` and `expectation_value`, and the unitarity test: floating-point numerics behind foreign libraries. `Engine` stands in for them.
- The sparse eigen-solver path, which asks `eigs` for `min(2*dim, k_dim)` values around zero. Only the window arithmetic it shares with `trim_eigensystem` is modelled (`Eigen.TrimWindow`). Its failures (for example when the requested count is too large for `eigs`) are among the engine's other errors.
- The `dU` sum itself (`calculate_factors`, `assemble_du`): complex floating-point sums and `np.roll`. Only their slot arithmetic is modelled.
- Rounding to `decimals` places is the uninterpreted function `rnd`. `Eigen.ExactQuasiEnergies` assumes exact rounding.
- Eigen.TrimEigensystem: sorts by the real part of each eigenvalue. numpy's `argsort` on complex values also orders by imaginary part, and ties between equal eigenvalues may come out in a different order.
- Eigen.FindUniqueVals: requires `omega != 0`; `np.mod` by zero gives NaN.
- Assemble.AssembleDk: returns the `(npm, k_dim, k_dim)` buffer as a sequence of matrices rather than one three-dimensional array.
- CoreFixedSystem.FixedSystem.ComputeU: takes `fuel`, since nothing in the code bounds the `nz` loop. No `max_nz` cap exists in the code, so none is modelled.
- CoreFixedSystem.FixedSystem.ComputeU: an error from the engine (`EigenvalueNumberError` or another) propagates out of `u`. The comment of `_test_nz` says errors are caught, but the code follows this path.
- CoreFixedSystem.FixedSystem.ComputeU: the `logging.debug` call after each increase of `nz` is output only and is not modelled.
- CoreFixedSystem.EngineError: the engine's errors other than `EigenvalueNumberError` (the `IndexError` of the eigenvalue lookup, a failing eigensolver) are one alternative, `OtherError`; which exception class it is is not distinguished.
- MuseumParametric.ParametricSystem.IncreaseNzUntilOk: takes `fuel`, for the same reason.
- MuseumParametric.ParametricSystem.DecreaseNzUntilNotOk: requires `step > 0`. Every caller passes at least 2, and a step of 0 or less would loop forever in the source.
- `DummyFixedSystem` and the `optional` class method of both `FixedSystemParameters` copies: test-only constructors with defaults.
- ParametricSystems.ParametricSystem.constructor: starts with no recorded key. The source never initialises `_last_controls`, `_last_t` or `self.t` in `ParametricSystemWithFunctions`. The first call there raises `AttributeError`, and `self.t` is a constructor argument here.
- ParametricSystems.ParametricSystem.U: compares controls by value, as evidently intended. As written, `self._last_controls == controls and ...` compares numpy arrays elementwise, and `and` on the resulting array raises `ValueError` for controls of length greater than one once such an array has been recorded; tests/systems/test_parametric_system.py:25-49 repeats a call with two-element arrays. The same holds for `du`.
- MuseumParametric.NzCheck: the museum `is_nz_ok` calls `ev.evolve_system`, but floq/evolution.py defines only `build_k`, so as written every call raises `AttributeError`. The model takes the `Engine` as the evolution the call evidently means.
- Spin.Hf: requires at least `2*ncomp` controls. numpy raises `IndexError` for fewer.
- Rydberg.UpdateHf: requires an `hf` of shape `(2*ncomp+1, 16, 16)` and at least `2*ncomp` controls. The source also accepts larger matrices (it writes only the listed entries) and raises `IndexError` only when an axis is too short for a written position or controls are missing.
- Rydberg.SetRabiEntries: writes the 32 entry pairs of `update_hf` by walking two tables of positions, not as straight-line assignments. The tables hold the source's positions in source order.
- `generate_ha` and `generate_hdip` of tests/ryd.py: literal float and square-root formulas.
- BlockMatrix.GetBlock: requires the block to fit in the matrix. numpy slicing would return a clipped block.
- The worker classes of floq/parallel/worker.py: multiprocessing and pipes.

## Findings

| source | as written | input that shows it | evidently intended | confidence | as-written member | corrected member |
|---|---|---|---|---|---|---|
| floq/helpers.py:13-16 | the branches for `num` outside `[-cutoff, cutoff]` compute `num mod n - n + cutoff` and `-((-num) mod n) + n + cutoff` | `n_to_i(7, 7) == -4` and `n_to_i(-7, 7) == 10`, both outside `[0, 7)` | wrap into `[0, n)`, as the later copies do with `(num + cutoff) mod n` | not executed | LegacyIndex.OutOfRangeWitnesses | Index.NToIPeriodic |
