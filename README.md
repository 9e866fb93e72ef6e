# Simulated annealing engine and its three adapters, in Dafny

This project models the simulated annealing engine `SimulatedAnnealing` (src/sa.py) and the
three problem adapters built on it: route sequencing `TSP_SA` (src/tsp_sa.py), codeword
decoding `GDP_SA` (src/gdp_sa.py) and subset selection under a capacity `KSP_SA`
(src/ksp_sa.py). It then proves properties of the model.

The pieces:

- `Results` holds the Python exceptions the code can raise (`KeyError`, `IndexError`,
  `ValueError`, `ZeroDivisionError`, `TypeError`) and a `Result` type that carries either a
  value or the exception.
- `Arithmetic` holds small facts about `%` and real division used by the proofs.
- `Annealing` is the engine:
  - `Annealer` holds what the constructor receives, plus the perturbation and the progress
    hook a subclass may override. The configuration the loop reads (schedule, state list,
    energy, budget, floor) never changes after the constructor, so it is a datatype. Two
    things an object does change are handled apart: the result logs of `GDP_SA` and `KSP_SA`
    (the classes below), and the TSP swap rewriting the first listed state ("## Left out").
  - The sample schedule `c / (t + 1)`.
  - The default perturbation: the cyclic successor in the state list.
  - The Metropolis acceptance rule.
  - The methods `Exec` and `Anneal`: the two nested loops of `exec`, proved equal to the
    recursive specification `Execution`.
- `Tsp`:
  - The closed-tour energy: a loop method proved equal to a recursive sum.
  - The state space of permutations.
  - `random.sample` of two distinct positions.
  - The in-place swap, a method on an `array` that returns the caller's own array.
- `BitVectors` holds the one-bit flip that the decoding and knapsack adapters both use. It
  copies the list (`x[:]`) and flips one entry of the copy.
- `Gdp`:
  - The Hamming distance.
  - Encoding a message: the mod-2 sum of generator rows.
  - The energy: ten times the distance, as nested loops over a code-word buffer.
  - The class `DecodingAnnealer`, whose `IterLog` appends to `resultValues`.
- `Ksp`:
  - The knapsack energy: minus the value, or 0 over capacity.
  - The class `KnapsackAnnealer` with its `IterLog`.

The outside world is passed in explicitly:

- `math.exp` and `math.sqrt` are function parameters.
- `random.random()` is `Env.draws(k)`, the draw for trial `k`, where `k` is
  `t * n_per + i`.
- The positions `randint` and `sample` choose come from `picks(k)`.
- `exec` has no loop bound, so `Exec` takes a ghost `bound`: a step whose temperature is
  below the floor.

### Behaviour of the code worth knowing

- **Number of outer steps.** With the sample schedule, the loop condition
  `c / (t + 1) >= t_end` gives `floor(c / t_end)` outer steps (`Annealing.SampleScheduleSteps`).
  That is one more than `ceil(c / t_end) - 1` when `c / t_end` is a whole number:
  `c = 100`, `t_end = 50` runs steps 0 and 1.
- **main.py's runs.** main.py passes the rows of a cost matrix as nodes, but the TSP energy
  reads only `node[0]` and `node[1]`, as plane coordinates. With its `c = 30` and
  `t_end = 50` no outer step runs at all, so both runs return the identity tour unchanged
  (`Tsp.MainReturnsIdentity`).
- **Capacity.** With the hook called as `iter_log(x, t)` (the corrected call, see
  "## Findings"; as written every run that reaches a step raises TypeError), a knapsack run
  can end over the capacity. An over-capacity selection scores
  0, the same as the empty selection, so a flip into it from a state of energy 0 is always
  accepted (`Ksp.OverweightMoveAccepted`, one trial). A whole run doing so: one item of
  value 7 and weight 100, capacity 50, one step, returns the full selection `[1]`
  (`Ksp.OverweightRunWitness`).
- **TSP acceptance.** The TSP perturbation swaps inside the caller's list and returns that
  same list. The acceptance rule therefore compares the swapped tour with itself and always
  accepts: every trial keeps its swap (`Tsp.TourTrialAlwaysSwaps`).

## Model

| member | source | states |
|---|---|---|
| `Annealing.SampleSchedule` | src/sa.py:41 | every temperature times `t + 1` gives back `c`: the schedule is `c / (t + 1)` with true division |
| `Annealing.SampleScheduleStart` | src/sa.py:41 | the sample schedule starts at `c` |
| `Annealing.SampleScheduleDecreasing` | src/sa.py:41 | for `c > 0` the sample schedule is strictly decreasing |
| `Annealing.SampleScheduleAbove` | src/sa.py:41 | for a positive floor, step `u` is at or above the floor exactly when `u < floor(c / t_end)` |
| `Annealing.FirstBelow` | src/sa.py:106 | the step where the while loop stops: at or after `t`, below the floor, with every step before it (from `t`) at or above the floor |
| `Annealing.FirstBelowUnique` | src/sa.py:106 | that stopping step is the only step with those properties |
| `Annealing.SampleScheduleSteps` | src/sa.py:103-114 | with the sample schedule, `c >= 0` and a positive floor, `exec` runs exactly `floor(c / t_end)` outer steps |
| `Annealing.IndexOf` | src/sa.py:57 | `list.index`: the position of the first occurrence |
| `Annealing.DefaultPerturbation` | src/sa.py:53-58 | defined exactly for members of the state list, KeyError otherwise; the result is the next element after the first occurrence, or the first element after the last position |
| `Annealing.DefaultMove` | src/sa.py:53-58 | as the engine sees the default perturbation: defined exactly for members of the state list (KeyError otherwise); the caller's state is left as it is and the candidate is the default perturbation's successor, which lies in the list |
| `Annealing.IndexOfDistinct` | src/sa.py:57-58 | in a list without repetitions, `index` recovers the position, and the successor of the `j`-th state is the `(j + 1)`-th, wrapping around |
| `Annealing.DefaultPerturbationCycles` | src/sa.py:53-58 | in a list without repetitions, `k` default perturbations from the `i`-th state reach the `(i + k) mod n`-th |
| `Annealing.Metropolis` | src/sa.py:74-83 | an equal or lower energy is accepted; ZeroDivisionError exactly for a worse move at temperature 0; only a worse move is ever rejected |
| `Annealing.IsAcceptable` | src/sa.py:60-83 | an exception of the energy of `curr`, then of `next`, propagates; with both energies defined it raises exactly for a worse move at a step whose temperature is 0; only a worse move is ever rejected |
| `Annealing.ImprovingMoveAccepted` | src/sa.py:71-75 | an equal or lower candidate energy is accepted at any temperature and for any draw |
| `Annealing.WorseMoveAcceptedIffDraw` | src/sa.py:77-83 | a higher candidate energy at a nonzero temperature is accepted exactly when the draw is at most `exp(-(e_next - e_curr) / T)`, where `T` is the temperature of the step passed in |
| `Annealing.SameStateAccepted` | src/sa.py:71-75 | a state compared with itself is always accepted |
| `Annealing.AcceptanceMonotoneInTemperature` | src/sa.py:77-81 | for a non-decreasing `exp`, a move accepted at one positive temperature is accepted at every higher one |
| `Annealing.AcceptanceMonotoneInGap` | src/sa.py:77-81 | for a non-decreasing `exp`, a move accepted at one energy gap is accepted at every smaller gap |
| `Annealing.AcceptanceProbabilityBounds` | src/sa.py:77-78 | for a positive, increasing `exp` with `exp(0) = 1`, the acceptance probability of a worse move lies strictly between 0 and 1 |
| `Annealing.Trial` | src/sa.py:109-112 | an exception of the perturbation propagates; a trial that completes ends in the caller's state or in the candidate |
| `Annealing.Trials` | src/sa.py:108 | a budget `n_per <= 0` runs no trial: `range(n_per)` is empty |
| `Annealing.Run` | src/sa.py:106-115 | a run that completes ends in a state whose energy is defined, since the closing log line evaluates it |
| `Annealing.Start` | src/sa.py:104 | the supplied start state, or else the first listed state; IndexError exactly when neither exists |
| `Annealing.Execution` | src/sa.py:93-117 | with no start state and an empty list `exec` raises IndexError; a result it returns always has an energy |
| `Annealing.StepTrials` | src/sa.py:108-112 | the inner loop equals `Trials`: each trial perturbs, then keeps the candidate if accepted and the caller's state otherwise; exceptions propagate. Its `count` is the loop index, the `max(n_per, 0)` iterations of `range(n_per)` |
| `Annealing.Anneal` | src/sa.py:103-117 | the while loop equals `Run`: per outer step the hook and `n_per` trials, then the energy of the final state for the closing log line; any exception propagates. On success it stops at the first step below the floor and reports `steps * max(n_per, 0)` trials |
| `Annealing.Exec` | src/sa.py:93-117 | `exec` equals `Execution`: the supplied start state or else the first listed one (IndexError for an empty list), then the loop, with the same step and trial counts |
| `Annealing.NoStepReturnsStart` | src/sa.py:104-117 | if the first temperature is already below the floor, the start state comes back unchanged, or the exception its energy raises in the closing log line |
| `Annealing.SampleRunIsIdle` | main.py:10-12 | with the sample schedule for `c = 30` and floor 50, any run from a state with an energy returns that state, whatever the hook and perturbation |
| `Annealing.TrialChangesOnlyOnAcceptance` | src/sa.py:109-112 | when the perturbation leaves the caller's state alone, a trial changes the state only by moving to an accepted candidate |
| `Annealing.TrialsPreserve` | src/sa.py:108-112 | an invariant the perturbation keeps holds after every trial of a step |
| `Annealing.RunPreserves` | src/sa.py:106-114 | an invariant the perturbation keeps holds in the state a run ends in |
| `Annealing.RunSucceeds` | src/sa.py:106-114 | the run cannot raise and ends inside the invariant when: the perturbation keeps the invariant and never fails inside it; the energy is defined inside it; the hook passes inside it; and either the floor is positive or every move compares a state with itself |
| `Annealing.DefaultMoveStaysInStates` | src/sa.py:53-58 | the default perturbation never leaves the state list |
| `Annealing.DefaultRunStaysInStates` | src/sa.py:93-117 | with the default perturbation and no start state, a run that completes ends in a member of the state list |
| `Tsp.SquaredDistanceProperties` | src/tsp_sa.py:39 | the squared distance is non-negative, symmetric, and zero exactly for equal nodes |
| `Tsp.Resolve` | src/tsp_sa.py:57-58 | a Python index in `-n .. n - 1` denotes a position below `n` |
| `Tsp.Successor` | src/tsp_sa.py:58 | the position after `i` on the cycle is `(i + 1) mod n` |
| `Tsp.Energy` | src/tsp_sa.py:54-60 | the energy loop equals `TourEnergy`: the sum of the legs of the closed tour, or IndexError for an entry that does not index the nodes |
| `Tsp.PathCostNonNegative` | src/tsp_sa.py:56-58 | with a square root that is non-negative on non-negative arguments, every partial sum of legs is non-negative |
| `Tsp.TourEnergyNonNegative` | src/tsp_sa.py:54-60 | under the same condition, every tour energy is non-negative |
| `Tsp.TourEnergyRotationInvariant` | src/tsp_sa.py:56-58 | starting the tour one city later gives the same energy, or the same IndexError |
| `Tsp.IdentityIsPermutation` | src/tsp_sa.py:51-52 | the first state, the identity order, is a permutation |
| `Tsp.PermutationIsValidTour` | src/tsp_sa.py:51-58 | every permutation of the node indices has an energy |
| `Tsp.SwapProperties` | src/tsp_sa.py:75 | the swap keeps the length and the multiset of entries, exchanges the two entries, and leaves every other position alone |
| `Tsp.SwapKeepsPermutation` | src/tsp_sa.py:75 | swapping two distinct positions of a permutation gives a permutation |
| `Tsp.SampleTwo` | src/tsp_sa.py:73 | `sample(range(n), 2)` gives two distinct positions below `n` |
| `Tsp.SampleTwoCoversAllPairs` | src/tsp_sa.py:73 | every ordered pair of distinct positions can be drawn |
| `Tsp.Perturb` | src/tsp_sa.py:73-76 | fails with ValueError, leaving `x` untouched, exactly for fewer than two entries; otherwise swaps the two sampled positions inside `x` and returns `x` itself |
| `Tsp.TourMove` | src/tsp_sa.py:73-76 | as the engine sees the swap: ValueError exactly for fewer than two entries; otherwise the caller's state and the candidate are the same list, of the same length and entries |
| `Tsp.TourAnnealer` | src/tsp_sa.py:22-26 | the engine keeps the given schedule, state list, budget and floor; its energy is the tour length, its perturbation the swap, and its hook always passes (TSP_SA keeps the base no-op `iter_log`) |
| `Tsp.TourTrialAlwaysSwaps` | src/tsp_sa.py:75-76 | because the caller's own list is returned, every trial on a permutation of two or more entries ends in the swapped tour |
| `Tsp.TourMoveKeepsPermutations` | src/tsp_sa.py:73-76 | the perturbation keeps permutations permutations |
| `Tsp.TourRunYieldsPermutation` | src/tsp_sa.py:22-26 | a completed run from the default state ends in a permutation |
| `Tsp.TourRunCompletes` | src/tsp_sa.py:22-26 | started without `x_start`, from the identity tour: with two or more nodes the run cannot raise, whatever the floor, and ends in a permutation |
| `Tsp.MainReturnsIdentity` | main.py:10-16 | main.py's configuration returns the identity tour without raising |
| `BitVectors.FlipChangesExactlyOne` | src/gdp_sa.py:87 | the flip keeps the length, changes entry `i` and no other, and swaps 0 and 1 |
| `BitVectors.FlipInvolutive` | src/gdp_sa.py:87 | flipping a 0/1 entry twice gives back the vector |
| `BitVectors.FlipMove` | src/gdp_sa.py:84-88 | as the engine sees the flip: ValueError exactly for an empty vector; otherwise the caller's state is left alone and the candidate has the same length and differs from it exactly at the picked position |
| `BitVectors.FlipPerturb` | src/gdp_sa.py:84-88 | ValueError exactly for an empty vector; otherwise a fresh copy with entry `a mod n` flipped (src/ksp_sa.py:64-68 is the same code) |
| `BitVectors.FlipMoveKeepsBits` | src/ksp_sa.py:64-68 | the flip keeps 0/1 vectors of a given length 0/1 vectors of that length |
| `Gdp.HammingDistance` | src/gdp_sa.py:40-45 | the counting loop equals `Hamming`: the number of differing positions of `c1`, or IndexError when `c2` is shorter |
| `Gdp.MismatchesProperties` | src/gdp_sa.py:40-45 | the count over the first `m` positions is at most `m`, zero exactly when the prefixes agree, and symmetric |
| `Gdp.HammingProperties` | src/gdp_sa.py:40-45 | the distance is defined exactly when `c1` is no longer than `c2`; it is at most `len(c1)`, zero exactly when `c1` is a prefix of `c2`, and symmetric on equal lengths |
| `Gdp.Parity` | src/gdp_sa.py:63-68 | every code-word entry the loop builds is 0 or 1 |
| `Gdp.ParityIsColumnSumMod2` | src/gdp_sa.py:63-68 | reducing mod 2 after each addition gives the column sum of the selected rows, mod 2 |
| `Gdp.Encode` | src/gdp_sa.py:62-68 | a code word has one 0/1 entry per column of the first row |
| `Gdp.EncodeIsColumnParity` | src/gdp_sa.py:62-68 | entry `j` of the code word is the column-`j` sum of the selected rows, mod 2 |
| `Gdp.EncodeZeros` | src/gdp_sa.py:58-68 | the zero message, the start state, encodes to the zero word |
| `Gdp.EncodeFlipAt` | src/gdp_sa.py:63-68 | entry `j` of the code word after flipping bit `i` is the old entry plus `G[i][j]`, mod 2 |
| `Gdp.EncodeFlip` | src/gdp_sa.py:63-68 | flipping message bit `i` adds row `i` to the code word, mod 2 |
| `Gdp.EnergyRange` | src/gdp_sa.py:61-71 | the energy is defined exactly for a message the matrix can encode and a long enough received word, IndexError otherwise. It is a multiple of 10 between 0 and 10 times the code length, and 0 exactly when the code word was received |
| `Gdp.InitialEnergy` | src/gdp_sa.py:58-71 | for a received word at least `len(G[0])` long, the start state's energy is 10 times the number of nonzero entries among its first `len(G[0])` entries (a shorter word raises IndexError, `Gdp.EnergyRange`) |
| `Gdp.Energy` | src/gdp_sa.py:61-71 | the nested loops over the code buffer equal `DecodingEnergy`, including where IndexError is raised |
| `Gdp.LogOutcome` | src/gdp_sa.py:90-93 | the hook `iter_log(x, t)` passes exactly when the energy of `x` is defined; otherwise it raises IndexError |
| `Gdp.DecodingEngine` | src/gdp_sa.py:22-27 | the engine `GDP_SA` configures, with the hook called as `iter_log(x, t)`, the intended call (see "## Findings"): the single zero message as state list, the decoding energy, the flip perturbation, and a hook that passes exactly when the energy is defined |
| `Gdp.AsWrittenDecodingEngine` | src/sa.py:107 | the same configuration, but the hook is called without `t`, so every call raises TypeError |
| `Gdp.AsWrittenExecRaisesTypeError` | src/gdp_sa.py:90 | as written, `exec` raises TypeError once the first temperature is at or above the floor |
| `Gdp.DecodingRunYieldsMessage` | src/gdp_sa.py:22-27 | started without `x_start`, from the zero message, with the hook called as `iter_log(x, t)` (the corrected call, see "## Findings"): a completed run ends in a 0/1 message with one entry per row |
| `Gdp.DecodingRunCompletes` | src/gdp_sa.py:22-27 | started without `x_start`, from the zero message: with the hook called as `iter_log(x, t)`, a well-formed matrix and a positive floor, the run cannot raise and ends in a 0/1 message |
| `Gdp.DecodingAnnealer.constructor` | src/gdp_sa.py:12-27 | stores the configuration; the state list is the single zero message; the log starts empty |
| `Gdp.DecodingAnnealer.IterLog` | src/gdp_sa.py:90-93 | appends the energy of `x` to the log, or raises the energy's exception and leaves the log unchanged; its outcome is the hook of the object's engine (`Engine`) |
| `Ksp.Energy` | src/ksp_sa.py:42-51 | the accumulation loop equals `KnapsackEnergy`, including IndexError for a selection longer than the item list |
| `Ksp.TotalValueNonNegative` | src/ksp_sa.py:44-45 | with non-negative counts and values, the total value is non-negative |
| `Ksp.EnergySign` | src/ksp_sa.py:42-51 | with non-negative counts and values, the energy is never positive; a negative energy belongs to a selection within capacity whose value it negates |
| `Ksp.EnergyDefined` | src/ksp_sa.py:44-46 | the energy is defined exactly when the selection is no longer than the item list, IndexError otherwise |
| `Ksp.EmptySelectionScoresZero` | src/ksp_sa.py:39-51 | the start state, the empty selection, scores 0 for any capacity |
| `Ksp.FlipAdjustsTotals` | src/ksp_sa.py:64-68 | flipping entry `i` of a 0/1 selection adds or removes item `i`'s value and weight |
| `Ksp.SampleInstance` | src/ksp_sa.py:42-51 | items (60,10), (100,20), (120,30) with capacity 50: selecting the last two scores -220, all three (over capacity) score 0, the first two score -160 |
| `Ksp.LogOutcome` | src/ksp_sa.py:70-73 | the hook `iter_log(x, t)` passes exactly when the selection is no longer than the item list; otherwise it raises IndexError |
| `Ksp.KnapsackEngine` | src/ksp_sa.py:21-25 | the engine `KSP_SA` configures, with the hook called as `iter_log(x, t)`, the intended call (see "## Findings"): the single empty selection as state list, the knapsack energy, the flip perturbation, and a hook that passes exactly when the energy is defined |
| `Ksp.AsWrittenKnapsackEngine` | src/sa.py:107 | the same configuration, but the hook is called without `t`, so every call raises TypeError |
| `Ksp.AsWrittenExecRaisesTypeError` | src/ksp_sa.py:70 | as written, `exec` raises TypeError once the first temperature is at or above the floor |
| `Ksp.KnapsackRunYieldsSelection` | src/ksp_sa.py:21-25 | started without `x_start`, from the empty selection, with the hook called as `iter_log(x, t)` (the corrected call, see "## Findings"): a completed run ends in a 0/1 selection with one entry per item, whose energy is defined |
| `Ksp.KnapsackRunCompletes` | src/ksp_sa.py:21-25 | started without `x_start`, from the empty selection: with the hook called as `iter_log(x, t)`, at least one item and a positive floor, the run cannot raise and ends in a 0/1 selection |
| `Ksp.OverweightMoveAccepted` | src/ksp_sa.py:48-49 | from a state of energy 0, a flip into an over-capacity selection scores 0 and is accepted at any temperature and for any draw |
| `Ksp.OverweightRunWitness` | src/ksp_sa.py:47-49 | with the hook called as `iter_log(x, t)` (the corrected call, see "## Findings"), a whole run (one item of weight 100, capacity 50, one step) returns the over-capacity selection `[1]` |
| `Ksp.KnapsackAnnealer.constructor` | src/ksp_sa.py:11-25 | stores the configuration; the state list is the single empty selection; the log starts empty |
| `Ksp.KnapsackAnnealer.IterLog` | src/ksp_sa.py:70-73 | appends the energy of `x` to the log, or raises the energy's exception and leaves the log unchanged; its outcome is the hook of the object's engine (`Engine`) |

## Left out

- The log output through src/logger.py is left out: the text of the `logger.info` and
  `logger.debug` lines of `exec` and of the `iter: t = ...` line of the `iter_log`
  overrides. The energy evaluation inside the closing line (src/sa.py:115), which can raise,
  is modelled (`Annealing.Run`, `Annealing.Anneal`).
- A cooling schedule that raises: `schedule` is a total function in the model, so an
  exception from a user-supplied schedule (called at src/sa.py:78 and src/sa.py:106) is not
  modelled. The sample schedule cannot raise.
- Plotting and drawing are not modelled (`output_result_graph`, `draw_graph`, matplotlib,
  networkx). Nor is main.py's printing; main.py's configuration appears only in
  `Annealing.SampleRunIsIdle` and `Tsp.MainReturnsIdentity`.
- Floating point is modelled by exact reals. `math.exp` and `math.sqrt` are uninterpreted
  parameters; properties that need them assume only monotonicity or sign. The OverflowError
  `math.exp` raises for a huge argument is not modelled; that argument can only occur at a
  negative temperature.
- Randomness: Python draws `random.random()` only for worse moves and shares one stream
  with `randint` and `sample`. The model gives every trial its own draw and picks, indexed
  by the trial number. Since the streams are arbitrary this allows every behaviour the
  source has, but it does not model the stream's actual distribution.
- `nodes2dataset` enumerates all permutations with `itertools.permutations`. The model
  describes that list (`Tsp.IsTourSet`: it starts with the identity and holds only
  permutations) instead of building all `n!` entries: the perturbation never reads the list,
  and `exec` reads only its first entry.
- In Python, the start state is the state list's first entry itself, so the TSP in-place
  swap also rewrites that entry, and likewise a caller-supplied `x_start`, which ends up
  holding the final tour and is the very object `exec` returns. The state list and the start
  state are values in the model, so this aliasing is not captured. The swap itself is modelled in place on an array (`Tsp.Perturb`).
- Annealing.Exec: requires (as `Annealing.Anneal` does) a ghost bound, a step whose temperature is below the floor. A
  schedule that never drops below the floor makes the source loop forever, and the model
  does not cover that input.
- Annealing.Exec: the base `iter_log(x)` does nothing. TSP_SA keeps it (the hook always
  passes), and the GDP/KSP overrides appear as the hook outcomes `LogOutcome`. The log each
  override appends to is modelled by the class methods `IterLog`, not by `Exec`, which works
  on values.
- Energies in GDP and KSP are Python ints; the engine compares them as numbers
  (`Results.AsReal`).

## Findings

| source | as written | input that shows it | evidently intended | confidence | as-written member | corrected member |
|---|---|---|---|---|---|---|
| src/gdp_sa.py:90 | the override `iter_log(self, x, t)` requires `t`, but the engine calls `self.iter_log(x)` (src/sa.py:107), raising TypeError | `GDP_SA(get_sample_cooling_schedule(30), G, codeword, 100, 1).exec()` for any `G`: the first temperature 30 is above the floor 1 | the engine passes the step, `self.iter_log(x, t)`, and the override logs the energy | high, not executed | `Gdp.AsWrittenExecRaisesTypeError` | `Gdp.DecodingRunCompletes` |
| src/ksp_sa.py:70 | the override `iter_log(self, x, t)` requires `t`, but the engine calls `self.iter_log(x)` (src/sa.py:107), raising TypeError | `KSP_SA(get_sample_cooling_schedule(30), [(60, 10)], 50, 100, 1).exec()`: the first temperature 30 is above the floor 1 | the engine passes the step, `self.iter_log(x, t)`, and the override logs the energy | high, not executed | `Ksp.AsWrittenExecRaisesTypeError` | `Ksp.KnapsackRunCompletes` |
