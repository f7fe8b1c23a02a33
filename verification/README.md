# Quantum demos: a Dafny model of their exact core

The repository holds five small C programs that imitate quantum algorithms
on classical data:

- `Glover.c`: Grover search over 8 amplitudes.
- `Solomon.c`: Simon's hidden-mask problem.
- `Doicha-Ioji.c`: Deutsch–Jozsa on two `int` "qubits".
- `Shore.c`: the Shor pipeline of phase estimation, inverse transform and measurement.
- `Optimization.c`: "quantum" gradient descent.

Most of what they do is floating-point arithmetic inside pthreads. Below it
sits exact logic, and that logic is what this project models:

- which basis indices every operator touches;
- the linear maps, exact over `real`;
- the selection rules (argmax, inverse CDF, first repeated count);
- the integer-division work split;
- the table index arithmetic of `Shore.c`.

Design choices:

- An amplitude is `Complex.Cplx(re, im)` over `real`, and a state is a
  `seq<Cplx>`.
- Basis indices are `nat`, with `Bits.Bit`, `Bits.Xor` and `Bits.FlipBit`
  giving `(i >> k) & 1`, `^` and `i ^ (1 << t)`.
- Transcendental values are parameters: `sqrt(2)`, `1/sqrt(N)`, `M_PI`,
  `2 * PI`, the phase `cexp(I * theta)`, the rotation factor
  `(cos, sin)`, the twiddle-factor table, and `estimate_phase`.
- Worker threads are run one after the other.
- A table access outside a static array is reported as
  `StateVector.Checked.OutOfRange(index)`, carrying the first offending
  index. The program itself would have undefined behaviour there.

Modules follow the programs:

- `Bits`, `Complex`, `Sums`, `StateVector` and `Partition` are shared.
- `Glover`, `Solomon` and `DoichaIoji` each model one program.
- `Shore.c` is split into five modules:
  - `ShorePhase`: `controlled_phase_shift`;
  - `ShoreEstimation`: `quantum_phase_estimation`;
  - `ShoreTransform`: `inverse_qft`;
  - `ShoreMeasure`: `measure_state`;
  - `ShoreMain`: `compute_thread` and the split in `main`.
- `Optimization` models `Optimization.c`.

## Model

| member | source | states |
|---|---|---|
| Complex.Add | Optimization.c:28-33 | definition of `add_complex_numbers`, componentwise; its properties are in `Complex.AddCommutative` and `Complex.AddZero` |
| Complex.Mul | Glover.c:28-33 | definition of `multiply_complex` (and `multiply_complex_numbers` at Optimization.c:36-41); its properties are in the `Complex.Mul*` lemmas and `Complex.Norm2Mul` |
| Complex.MulOne | Optimization.c:36-41 | multiplying by `(1, 0)` on either side gives the other factor back |
| Complex.MulMinusOne | Optimization.c:36-41 | multiplying by `(-1, 0)` negates both components |
| Complex.MulZero | Glover.c:28-33 | a product with `(0, 0)` on either side is `(0, 0)` |
| Complex.MulCommutative | Glover.c:28-33 | the complex product does not depend on the order of its factors |
| Complex.MulAssociative | Glover.c:28-33 | the complex product is associative, so successive phase factors combine into their product |
| Complex.AddCommutative | Optimization.c:28-33 | the componentwise sum does not depend on the order of its operands |
| Complex.AddZero | Optimization.c:28-33 | `(0, 0)` is neutral for the sum on either side |
| Complex.Norm2 | Glover.c:92-93 | the probability `re*re + im*im` is never negative |
| Complex.Norm2ZeroIff | Glover.c:92-93 | the probability is 0 exactly for the amplitude `(0, 0)` |
| Complex.Norm2Mul | Glover.c:28-33 | the probability of a product is the product of the probabilities |
| Bits.XorSelfInverse | Solomon.c:27-30 | XOR with the same mask twice gives the input back |
| Bits.XorBound | Solomon.c:36-45 | XOR of two `n`-bit numbers is an `n`-bit number |
| Bits.BitFlip | Shore.c:50 | `i ^ (1 << t)` toggles bit `t` and keeps every other bit |
| Bits.FlipBitInvolutive | Shore.c:50 | toggling the same bit twice gives the index back |
| Bits.FlipBitBound | Shore.c:48-51 | toggling a bit below `n` keeps an index below `2^n` |
| StateVector.InitialState | Shore.c:35-40 | `initialize_state` gives `2^n` amplitudes: 1 at index 0 and 0 at every other index |
| StateVector.Weights | Shore.c:101-103 | every probability is the squared magnitude of its amplitude and is not negative |
| Partition.ChunksDisjoint | Shore.c:171-173 | no unit falls into the chunks `[i*size, (i+1)*size)` of two different workers |
| Partition.ChunksCover | Shore.c:167-173 | a unit is given to some worker exactly when it lies below `size * workers` |
| Partition.OwnerOfUnit | Shore.c:171-173 | a covered unit `x` belongs to worker `x / size` |
| Partition.UnassignedUnits | Shore.c:167-173 | the units below `total` that no worker receives are exactly the last `total % workers` |
| Partition.BalancedStartEnds | Shore.c:167-173 | the balanced split starts at 0 and ends at `total` |
| Partition.BalancedChunksCover | Shore.c:167-173 | with the remainder spread over the first workers, every unit below `total` has a worker |
| Partition.BalancedChunksDisjoint | Shore.c:167-173 | with the balanced split no unit has two workers |
| Glover.CreateSuperposition | Glover.c:50-55 | all 8 entries are `(amp, 0)` |
| Glover.InvertPhase | Glover.c:58-60 | only the target's real part is negated: its imaginary part and every other entry are unchanged |
| Glover.InvertPhaseInvolutive | Glover.c:58-60 | applying the oracle twice gives the vector back |
| Glover.GroverIteration | Glover.c:76-79 | definition: the oracle, then the diffusion; what one step does from the uniform state is in `Glover.OneIterationFromUniform` |
| Glover.ApplyDiffusion | Glover.c:63-73 | the two-loop program sets every entry to `2 * sum / 8 - old` for real and imaginary parts separately, using the sums taken before any write |
| Glover.DiffusionParts | Glover.c:69-72 | the real parts are reflected about `2 * sumRe / 8` and the imaginary parts about `2 * sumIm / 8`, independently |
| Glover.DiffusionPreservesSums | Glover.c:63-73 | diffusion keeps both the sum of the real parts and the sum of the imaginary parts |
| Glover.DiffusionInvolutive | Glover.c:63-73 | diffusion applied twice gives the vector back exactly |
| Glover.DiffusionFixesConstant | Glover.c:63-73 | a vector with all entries equal is left unchanged |
| Glover.MeasureState | Glover.c:88-99 | the result has maximal probability and every earlier index a strictly smaller one; all-zero probabilities give 0 |
| Glover.LowestArgmaxUnique | Glover.c:88-99 | only one index is the lowest most probable one, so the result is determined |
| Glover.MainIterationCount | Glover.c:110 | with `M_PI` and `sqrt(8)` near their values, `(int)(M_PI / 4 * sqrt(8)) - 1` is 1 |
| Glover.NumIterations | Glover.c:110 | definition of `(int)(M_PI / 4.0 * sqrt(N)) - 1`, with truncation toward zero; its value is in `Glover.MainIterationCount` |
| Glover.RunGrover | Glover.c:111-113 | `count` Grover steps, none for a count of zero or less; the contract keeps the 8 amplitudes, and the step count `main` uses is analysed in `Glover.GroverMainFindsTarget` |
| Glover.OneIterationFromUniform | Glover.c:76-79 | from a uniform positive real amplitude `a`, one step gives `5a/2` at the target and `a/2` everywhere else |
| Glover.GroverMainFindsTarget | Glover.c:102-116 | the one step `main` runs makes the target the measured index |
| Solomon.Constants | Solomon.c:36-37 | the table has `2^8 = 256` entries, `max_value` is 255, and every worker's step is `255 / 16 = 15` |
| Solomon.ApplyF | Solomon.c:27-30 | definition of `apply_f` as `x ^ mask`; its properties are in `Solomon.ApplyFInvolutive`, `Solomon.ApplyFInjective` and `Solomon.ApplyFInTable` |
| Solomon.ApplyFInvolutive | Solomon.c:27-30 | `apply_f(apply_f(x, m), m) == x` |
| Solomon.ApplyFInjective | Solomon.c:27-30 | two inputs with the same output under one mask are equal |
| Solomon.ApplyFInTable | Solomon.c:42-45 | for an 8-bit input and mask the output indexes the 256-entry table |
| Solomon.ThreadRange | Solomon.c:37-39 | worker `t` covers `[15t, 15t + 15)`, the integer-division chunk of `Partition` |
| Solomon.ThreadRangesCover | Solomon.c:36-41 | the 16 ranges are disjoint and together cover exactly `[0, 240)` |
| Solomon.ProcessRange | Solomon.c:41-46 | entry `y` becomes `(y, count + 1)` exactly when `y ^ mask` lies in the range, no other entry changes, and the counts grow by the range's length |
| Solomon.RunSimonsAlgorithm | Solomon.c:53-72 | after all workers, entry `y` is `(y, 1)` if `y ^ mask < 240` and `(0, 0)` otherwise; every count is at most 1 and the counts add up to 240 |
| Solomon.FindPeriod | Solomon.c:84-93 | the result is the first index whose count exceeds 1, or 0 when no count does |
| Solomon.SimonsPeriod | Solomon.c:95-100 | the period `main` reports is 0 for every 8-bit mask |
| DoichaIoji.Hadamard | Doicha-Ioji.c:8-11 | the lowest bit is toggled and the bits above it are kept |
| DoichaIoji.HadamardInvolutive | Doicha-Ioji.c:8-11 | the "Hadamard" applied twice gives the value back |
| DoichaIoji.Oracle | Doicha-Ioji.c:14-18 | the input qubit is unchanged; the output qubit changes exactly when `f(input)` holds, and only in its lowest bit |
| DoichaIoji.MeasureAfterHadamard | Doicha-Ioji.c:21-23 | measuring after a "Hadamard" reads 1 exactly when the qubit was 0 |
| DoichaIoji.ConstantFunction | Doicha-Ioji.c:26 | definition: `true` for every input; `DoichaIoji.MainPrintsBalancedTwice` shows the algorithm still reports it as balanced |
| DoichaIoji.BalancedFunction | Doicha-Ioji.c:27 | definition: true exactly for a non-zero input; its use in `main` is in `DoichaIoji.MainPrintsBalancedTwice` |
| DoichaIoji.ExecuteAlgorithm | Doicha-Ioji.c:36-58 | the result is 1 exactly when the initial input qubit is 1, and otherwise 0 |
| DoichaIoji.ResultIndependentOfF | Doicha-Ioji.c:40-58 | the result does not depend on `f` or on the output qubit |
| DoichaIoji.MainPrintsBalancedTwice | Doicha-Ioji.c:61-86 | from input 0 and output 1 both the constant and the balanced function print "BALANCED" |
| ShorePhase.PhaseShift | Shore.c:43-54 | the gate stated index by index, the reference that `ShorePhase.ControlledPhaseShift` is proved equal to; it keeps the length |
| ShorePhase.ControlledPhaseShift | Shore.c:43-54 | amplitude `j` is multiplied by the phase exactly when `j ^ (1 << target)` has its control bit set, each at most once; all others are unchanged |
| ShorePhase.PhaseShiftDistinct | Shore.c:48-53 | for control ≠ target the phased indices are those with the control bit set |
| ShorePhase.PhaseShiftSameQubit | Shore.c:48-53 | for control = target the phased indices are those with the bit clear |
| ShorePhase.PhaseShiftByOne | Shore.c:51 | a phase of `(1, 0)` changes nothing |
| ShorePhase.PhaseShiftCompose | Shore.c:51 | two shifts on the same qubits combine into one shift by the product of the phases |
| ShorePhase.PhaseShiftKeepsWeights | Shore.c:51 | a phase of unit magnitude, as `cexp(I * theta)` is, leaves every measurement probability unchanged |
| ShoreEstimation.Row | Shore.c:71-72 | row `k` issues `k` gates, gate `j` with control `n-1-j` and target `n-1-k` |
| ShoreEstimation.Rows | Shore.c:70-74 | the first `k` rows issue `0 + 1 + ... + (k-1)` gates, each below the diagonal |
| ShoreEstimation.TriangleClosed | Shore.c:70-74 | `2 * (0 + 1 + ... + (m-1)) == m * (m-1)` |
| ShoreEstimation.Schedule | Shore.c:70-74 | there are `n(n-1)/2` calls, each with `0 <= target < control < n` |
| ShoreEstimation.ScheduleAt | Shore.c:70-74 | gate `(k, j)` is issued at position `k(k-1)/2 + j`, so every pair `j < k < n` is issued |
| ShoreEstimation.IndexOrder | Shore.c:62-64 | a pair with a smaller table index `k * 2^N + j` comes earlier in loop order |
| ShoreEstimation.WritesFitIff | Shore.c:58-64 | every write index `k * 2^N + j` lies below 65536 exactly when `N <= 12` |
| ShoreEstimation.ComputeThreadFirstBadWrite | Shore.c:62-64 | with `N = 16` the first write outside the table is index 65536, at `k = 1, j = 0` |
| ShoreEstimation.CorrectedPhaseIndexFits | Shore.c:64 | the row-major index `k * N + j` stays below 65536 for every `N <= 256` |
| ShoreEstimation.CorrectedPhaseIndexInjective | Shore.c:64 | distinct pairs get distinct row-major indices |
| ShoreEstimation.FilledTable | Shore.c:61-68 | the table after the filling loop: 65536 entries, with the phase of `(k, j)` at `k * 2^N + j`; its entries are stated by `ShoreEstimation.FilledTableAt` |
| ShoreEstimation.FilledTableAt | Shore.c:62-66 | the filled table holds `2 * PI * a^j / N^(k+1)` at the index of `(k, j)` |
| ShoreEstimation.FillPhaseTable | Shore.c:61-68 | filling succeeds exactly when every write fits, then gives the filled table; otherwise it stops at the first write outside the table |
| ShoreEstimation.ApplyGates | Shore.c:70-74 | the gates of a schedule applied in order, each with its tabled angle; it keeps the length, and `ShoreEstimation.ApplyGatesAppend` splits it at any point |
| ShoreEstimation.ApplyRow | Shore.c:71-73 | a row succeeds exactly when all its reads fit, applying its gates in order; otherwise it stops at its first index outside the table |
| ShoreEstimation.QuantumPhaseEstimation | Shore.c:57-75 | success exactly when all writes and all reads fit, with the schedule's gates applied in order using the filled table; otherwise the first offending write or read |
| ShoreTransform.RowDot | Shore.c:90-93 | a row's sum is `sum_j s[j] * factors[i*j]` when every read fits, and otherwise stops at the first `j` with `i*j >= 65536` |
| ShoreTransform.RowsDoneStep | Shore.c:89-95 | writing row `i` keeps earlier rows' results and completes row `i` against the partly overwritten vector |
| ShoreTransform.InverseQft | Shore.c:78-96 | success exactly when all reads fit; then row `i` is its dot product with the vector as it stood when row `i` ran, and otherwise the first offending read |
| ShoreTransform.FactorReadsFitIff | Shore.c:89-92 | every read `i*j` lies below 65536 exactly when `n <= 8` |
| ShoreTransform.ComputeThreadFirstBadFactor | Shore.c:89-92 | with `n = 16` the first read outside the table is row 2, column 32768 |
| ShoreTransform.TextbookInverseQft | Shore.c:83-85 | the corrected transform reads `factors[(i*j*2^(16-n)) % 65536]` from the untouched input |
| ShoreTransform.TextbookOfInitialState | Shore.c:83-85 | the corrected transform takes the all-zero basis state to the uniform vector `factors[0]` |
| ShoreTransform.InPlaceOnFirstUnit | Shore.c:89-95 | in place on `[1, 0]`, row 0 gives `factors[0]` and row 1 reads it back, giving `factors[0]^2` |
| ShoreTransform.InPlaceDiffersFromTextbook | Shore.c:89-95 | with the program's `factors[0] = 1/65536`, the in-place result differs from the transform of the input |
| ShoreMeasure.SelectIndex | Shore.c:114-123 | the result is the first `i` whose cumulative probability exceeds the draw, or 0 when none does |
| ShoreMeasure.MeasureState | Shore.c:99-126 | the result lies in `[0, 2^n)`; an all-zero state gives 0, and otherwise the selection rule over the normalised probabilities |
| ShoreMeasure.SelectedIsUnique | Shore.c:117-122 | the scan stops at one index only |
| ShoreMeasure.DistributionFacts | Shore.c:105-112 | the normalised probabilities are non-negative and add up to 1 |
| ShoreMeasure.SomeIndexSelected | Shore.c:110-123 | for a state with weight, every draw in `[0, 1)` selects an index |
| ShoreMeasure.NothingSelectedFromOne | Shore.c:115-123 | a draw of 1 or more selects nothing, so the result falls back to 0 |
| ShoreMeasure.PointMassSelects | Shore.c:101-123 | for a state with all its weight at `k`, every draw in `[0, 1)` selects exactly `k` |
| ShoreMeasure.InitialStateSelectsZero | Shore.c:101-123 | measuring the all-zero basis state selects exactly 0 for every draw in `[0, 1)` |
| ShoreMeasure.TopDrawMissesPointMass | Shore.c:115-123 | when `rand()` returns `RAND_MAX` the draw is 1 and nothing is selected, even for a point mass away from 0 |
| ShoreMeasure.CorrectedDraw | Shore.c:115 | `rand() / (RAND_MAX + 1.0)` lies in `[0, 1)` |
| ShoreMeasure.CorrectedDrawSelectsPointMass | Shore.c:115-123 | with the corrected draw a point mass at `k` is measured as `k` for every value of `rand()` |
| ShoreMain.MainChunks | Shore.c:164-173 | with 15 units and 4 workers the chunk size is 3; chunks are disjoint, cover `[0, 12)`, and 12, 13, 14 have no worker |
| ShoreMain.ComputeThread | Shore.c:138-153 | an empty range gives no results; otherwise the run fails exactly when `N > 8`, fails at index 65536 for `N = 16`, and on success measures one index below `2^N` per iteration |
| Optimization.InitializeQuantumState | Optimization.c:50-54 | 16 amplitudes: `(1, 0)` at index 0 and `(0, 0)` at the other 15 |
| Optimization.ApplyHadamard | Optimization.c:57-77 | every amplitude whose bit is 1 becomes `(0, 0)` |
| Optimization.ApplyHadamardScales | Optimization.c:61-66 | every amplitude whose bit is 0 is multiplied by `2 / sqrt(2)` |
| Optimization.ApplyHadamardIsLocal | Optimization.c:59-75 | each new amplitude depends on the amplitude at the same index only |
| Optimization.HadamardAll | Optimization.c:120-122 | the Hadamards on qubits `0` to `k-1` in loop order keep 16 amplitudes; their effect is in `Optimization.HadamardAllKills` and `Optimization.HadamardAllLeavesIndexZero` |
| Optimization.HadamardAllKills | Optimization.c:120-122 | an amplitude zeroed by one of the Hadamards stays zero through the later ones |
| Optimization.HadamardAllLeavesIndexZero | Optimization.c:120-122 | after the Hadamards on qubits 0 to 3, every amplitude except index 0 is zero, whatever the state |
| Optimization.SuperposeInitialState | Optimization.c:119-122 | from the all-zero basis state with `sqrt2 * sqrt2 == 2`, the Hadamards give `(4, 0)` at index 0 and zero elsewhere |
| Optimization.SuperposeAtZero | Optimization.c:119-122 | from the all-zero basis state with `sqrt2 * sqrt2 == 2`, the four Hadamards leave `(4, 0)` at index 0 |
| Optimization.ControlledZRotation | Optimization.c:80-91 | the rotation by `(cos, sin)` on the 16 amplitudes, entries with both bits set multiplied; its properties are in the `Optimization.ControlledZ*` lemmas |
| Optimization.ControlledZSymmetric | Optimization.c:82-89 | control and target play the same role |
| Optimization.ControlledZByOne | Optimization.c:82-89 | a rotation factor of `(1, 0)` changes nothing |
| Optimization.ControlledZCompose | Optimization.c:82-89 | two rotations on the same qubits combine into one rotation by the product of the factors |
| Optimization.ControlledZOnZeroes | Optimization.c:82-89 | the rotation changes nothing when every index with the target bit set holds zero |
| Optimization.ControlledZKeepsWeights | Optimization.c:82-89 | a rotation factor of unit magnitude, as `(cos, sin)` is, leaves every probability unchanged |
| Optimization.RotateAll | Optimization.c:124-127 | the rotations `(i, i)` for `i` below `k` in loop order keep 16 amplitudes; their effect is in `Optimization.RotateAllOnIndexZero` |
| Optimization.RotateAllOnIndexZero | Optimization.c:124-127 | the step's rotations leave a state that is zero outside index 0 unchanged |
| Optimization.GradientDescentStep | Optimization.c:113-139 | the step leaves the state exactly as the Hadamards left it; its update of `current_x` is on a local copy |
| Optimization.QuantumGradientDescent | Optimization.c:142-161 | all 100 printed values equal `initial_x`, and the final state is zero outside index 0 |

## Left out

- Threads, mutexes, `pthread_create` and `pthread_join`: every worker body is modelled as a sequential call, and the workers run one after the other.
- Known races are not modelled. `Solomon.c` shares one `thread_id` field among all workers, and `Shore.c`'s workers share one `state` array.
- The lazy static caches of `Shore.c` and their non-atomic flags are not modelled. The model describes the first call, which fills the table. A later call with the same `a` and `N`, which `compute_thread` always makes, would find the same table.
- Floating point and its rounding: all arithmetic is over `real`.
- Transcendental values are parameters: `sqrt`, `cos`, `sin`, `cexp`, `pow`'s double result, `atan2`, `cabs`, `M_PI` and `PI`.
- `Glover.c`'s `normalize`: it is never called.
- `Optimization.c`'s `estimate_phase`, `target_function` and `derivative`: `estimate_phase` is a parameter, and the step's rotation factor is a parameter computed from `current_x`.
- Randomness: `rand`, `srand`, `time` and `generate_target_index`. The target index and the measurement draw are inputs.
- I/O: `printf`, `perror`, `print_results` and the `SIGSEGV` handler. The values the programs print are returned instead.
- Memory management: `malloc`, `calloc`, `free` and variable-length arrays.
- The `temp` copy in `controlled_phase_shift`: it is written but never read.
- 32-bit overflow of `1 << N`, `i * j` and `k * (1 << N) + j` in `Shore.c` is not modelled. For `N <= 30` the first access outside a table happens before any product overflows, and the model stops there. From `N = 31` on `1 << N` itself overflows, and the model's unbounded naturals do not follow the program.
- The behaviour after an access outside a table is undefined in C and is not modelled. The model returns the first offending index.
- Solomon.ProcessRange: requires `mask < 256`. A wider mask makes the C program write outside its 256-entry table.
- Solomon.RunSimonsAlgorithm: requires `mask < 256`, for the same reason.
- DoichaIoji.Measure: has no contract of its own, because its body `q == 1` is the whole specification. DoichaIoji.MeasureAfterHadamard states its use in the algorithm.
- ShoreMain.ComputeThread: on success it states only the number and range of the measured indices. Their values depend on the draws and on the parameters.

## Findings

| source | as written | input that shows it | evidently intended | confidence | as-written member | corrected member |
|---|---|---|---|---|---|---|
| Shore.c:167-173 | chunk `[i * (M / 4), (i + 1) * (M / 4))` for `i < 4` | `M = 15`: units 12, 13, 14 are assigned to no worker | the remainder `M % 4` is handed out as well | not executed | Partition.UnassignedUnits | Partition.BalancedChunksCover |
| Shore.c:64 | phase table index `k * (1 << N) + j` in a 65536-entry table | `N = 16`, `k = 1`, `j = 0`: index 65536 | a row-major index `k * N + j` that fits the table | not executed | ShoreEstimation.ComputeThreadFirstBadWrite | ShoreEstimation.CorrectedPhaseIndexFits |
| Shore.c:89-92 | factor index `i * j` in a 65536-entry table | `n = 16`, `i = 2`, `j = 32768`: index 65536 | the factor index `(i * j * 2^(16 - n)) % 65536`, which is `(i * j) % 65536` for `n = 16` | not executed | ShoreTransform.ComputeThreadFirstBadFactor | ShoreTransform.TextbookInverseQft |
| Shore.c:89-95 | `state[i]` overwritten while later rows still read it | `n = 1`, state `[1, 0]`, `factors[0] = 1/65536`: row 1 reads the new `state[0]` | every row reads the untouched input | not executed | ShoreTransform.InPlaceDiffersFromTextbook | ShoreTransform.TextbookOfInitialState |
| Shore.c:115-123 | draw `rand() / RAND_MAX`, which can be exactly 1 | `rand() == RAND_MAX` with all weight at index 5: nothing is selected and the result is 0 | a draw in `[0, 1)`, such as `rand() / (RAND_MAX + 1.0)` | not executed | ShoreMeasure.TopDrawMissesPointMass | ShoreMeasure.CorrectedDrawSelectsPointMass |
