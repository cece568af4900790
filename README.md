# Two genetic-algorithm engines, modelled and verified in Dafny

The repository holds two small genetic algorithms.

* **The travelling-salesman engine** (`TSP/TSP/gen_model.py`). A `Route` is a
  permutation of `City` objects. It caches its travel cost and its fitness,
  using 0 as "unset". Each `City` memoises its distances by city name. A
  `Population` breeds the next generation in pairs: order crossover of two
  parents, then swap mutation of each child. The list of children is then
  cut back to the population size.
* **The function-maximising engine** (`GenMax/GenMax/GenMax.py`). A
  chromosome is a list of 0/1 genes. It is decoded big-endian and mapped
  linearly onto `[x_min, x_max]` with Python's round-half-to-even. Fitness is
  the parabola `-0.5 x^2 + 10 x + 13`, clamped at 0. Each generation the
  engine:
  1. evaluates every individual;
  2. records the maximum, minimum and mean fitness;
  3. breeds the next population with roulette-wheel selection, one-point
     crossover and bit-flip mutation.

The operators are deterministic once the random draws are fixed. Every draw
is therefore a parameter:

* in the function-maximising engine a coin `random.random()` is a real `u`,
  `flip(p)` is `u < p`, and the roulette pick is `u * fitness_sum`;
* in the travelling-salesman engine a coin is the boolean outcome of
  `flip(p)` itself, and the two parents chosen by `random.choices` are two
  indices into the population;
* `randint` and `random.sample` results are integers, with preconditions that
  say which values the generator can produce.

Floating-point numbers are exact reals. `np.sqrt` is a function parameter
`sqrt`.

Where the source changes state, the model does too:

* Cities, routes and populations are classes whose methods update their
  fields.
* Distances are memoised in a `map` field.
* `mutate` in the function-maximising engine flips an `array` in place.
* The loops of `roulette_wheel_selection`, `initialize_population`, the
  evaluation, the breeding loop and `genetic_algorithm` are `while`/`for`
  loops. Each is proved against a specification function of the same step.

The TSP parents are Route objects. When the crossover coin fails, the
children *are* the parents, and they are mutated in place. The model keeps
this aliasing.

Errors are modelled rather than excluded. In the function-maximising engine,
`Result` is either `Ok(value)` or `ValueError`. Three inputs make the source
raise `ValueError`:

* `int('', 2)` when chromosomes are empty;
* `max([])` when the population is empty;
* `randint(1, 0)` when the crossover coin comes up with fewer than 2 genes.

In the travelling-salesman engine the cost is a numpy float, so
`1 / travel_cost` with a cost of 0 raises nothing: it yields `inf`, which is
cached. `Reciprocal` is either `Finite(v)` or `Infinite`, and `Finite(0.0)` is
the "unset" value.

Files:

| file | module | contents |
|---|---|---|
| `sequences.dfy` | `Sequences` | Python slicing (clamped), distinctness, permutations, swapping |
| `order_crossover.dfy` | `OrderCrossover` | the order crossover of `__order_crossover` and its permutation and layout lemmas |
| `tsp.dfy` | `Tsp` | `City`, `Route`, `Population` |
| `binary.dfy` | `Binary` | big-endian value, round half to even, `decode` |
| `stats.dfy` | `Stats` | `sum`, `max`, `min`, and the mean lying between them |
| `genmax.dfy` | `GenMax` | configuration, objective and fitness, `flip`, `crossover`, `mutate`, `roulette_wheel_selection` |
| `genmax_run.dfy` | `GenMaxRun` | `initialize_population`, the evaluation and breeding loops, `genetic_algorithm` and what a run promises |

## Model

| member | source | states |
|---|---|---|
| Sequences.Take | GenMax/GenMax/GenMax.py:40-41 | `s[:k]` is a prefix of `s` whose length is `k` clamped to `len(s)` |
| Sequences.Drop | GenMax/GenMax/GenMax.py:40-41 | `s[k:]` is what follows `s[:k]`: the two together give back `s` |
| OrderCrossover.Child | TSP/TSP/gen_model.py:190-197 | one child: `remaining[:j1] + section + remaining[j1:]`, with the donor's segment and the other parent less that segment; its layout is stated by `ChildLayout` and its permutation property by `ChildIsPermutation` |
| Sequences.Swapped | TSP/TSP/gen_model.py:52-53 | the tuple swap exchanges the two entries, keeps every other entry, and permutes the list |
| Tsp.City.constructor | TSP/TSP/gen_model.py:11-15 | the new city has the given name and coordinates and an empty distance memo |
| Tsp.Distance | TSP/TSP/gen_model.py:21 | the Euclidean distance, the square root of the summed squared coordinate differences, taken by the parameter `sqrt`; `City.DistanceTo` states that the memo always yields it |
| Tsp.PathSum | TSP/TSP/gen_model.py:41 | the sum of the legs `i -> i+1` for `i < k`, added left to right; `PathSumRotate` and `TourLengthRotate` state its properties |
| Tsp.TourLength | TSP/TSP/gen_model.py:41-42 | the open path plus the closing leg from the last city back to the first; `TourLengthRotations` shows it does not depend on the starting city |
| Tsp.City.DistanceTo | TSP/TSP/gen_model.py:17-23 | a name already in the memo returns the stored value and leaves the memo alone; otherwise the Euclidean distance is returned and stored under the other city's name; in a catalog with unique names and sound memos the answer is always the true distance and the memos stay sound |
| Tsp.TourLengthRotate | TSP/TSP/gen_model.py:41-42 | rotating the tour by one city keeps its closed-tour length |
| Tsp.TourLengthRotations | TSP/TSP/gen_model.py:41-42 | starting the tour at any of its cities (rotating it by any `k`) keeps its closed-tour length |
| Tsp.PathSumRotate | TSP/TSP/gen_model.py:41 | rotating the route by one city removes the first leg from the open path sum |
| Tsp.Route.constructor | TSP/TSP/gen_model.py:26-30 | the new route holds the given cities, `n` is their number, and both caches are unset (0), so they are coherent with the cities whatever the square root |
| Tsp.Route.TravelCost | TSP/TSP/gen_model.py:38-44 | a non-zero cached cost is returned without looking up any distance; otherwise the legs `i -> i+1` plus the closing leg `n-1 -> 0` are summed through `distance_to`, cached and returned; with sound memos that sum is the tour length and cache coherence is kept |
| Tsp.Route.Fitness | TSP/TSP/gen_model.py:32-36 | the result is the cached fitness afterwards; a cached fitness other than 0 (`inf` included) is returned unchanged with nothing recomputed; otherwise `1 / travel_cost` is cached and returned, and that is `inf` when the cost is 0; with sound memos and a coherent cache the value is `1 / tour length`, infinite exactly when the tour length is 0 |
| Tsp.Route.Mutate | TSP/TSP/gen_model.py:46-50 | on a successful coin the two distinct drawn positions are swapped and both caches reset to 0; on a failed coin nothing changes; the cities stay a permutation of the old ones and a coherent cache stays coherent |
| Tsp.Route.SwapCities | TSP/TSP/gen_model.py:52-53 | the cities become the old ones with positions `i` and `j` exchanged |
| Tsp.Route.ResetParams | TSP/TSP/gen_model.py:55-57 | both caches are set back to the "unset" value 0 |
| Tsp.Population.constructor | TSP/TSP/gen_model.py:69-71 | the population holds the given routes and `n` is their number |
| Tsp.Population.InitializePopulation | TSP/TSP/gen_model.py:73-79 | `popsize` fresh routes, the `k`-th holding the `k`-th shuffle with both caches unset, each a permutation of the cities |
| OrderCrossover.Without | TSP/TSP/gen_model.py:193-194 | the filtered list holds exactly the elements of `s` not in `exclude`, and is no longer than `s` |
| OrderCrossover.WithoutCount | TSP/TSP/gen_model.py:193-194 | the filter drops every occurrence of an excluded element and keeps every occurrence of the others |
| OrderCrossover.Cross | TSP/TSP/gen_model.py:187-199 | for cuts with `1 <= jcross1 <= n-2` and `jcross1 < jcross2 <= n-1` and parents that are permutations of each other without repetitions: both children have length `n`; child 1 holds `parent1[jcross1:jcross2]` in place and, outside it, exactly `parent2` less that segment, in `parent2`'s order (child 2 symmetrically); both children are permutations of the parents |
| OrderCrossover.CrossLayout | TSP/TSP/gen_model.py:190-197 | the layout and permutation facts of both children, stated for the children themselves |
| OrderCrossover.ChildIsPermutation | TSP/TSP/gen_model.py:190-197 | if both parents are permutations of the same distinct cities, a child is a permutation of them too |
| OrderCrossover.ChildLayout | TSP/TSP/gen_model.py:190-197 | a child has the parents' length and holds its donor's segment `[jcross1, jcross2)` in place; outside the segment it holds, in order, exactly the other parent's cities not in the segment, the first `jcross1` of them before it |
| OrderCrossover.CrossPreservesPermutation | TSP/TSP/gen_model.py:181-199 | both children of permutations of distinct cities are permutations of those cities, of length `n` |
| Tsp.Population.OrderCrossover | TSP/TSP/gen_model.py:181-199 | on a failed coin the two selected parent objects themselves are returned; otherwise two fresh routes with unset caches holding the order-crossover children; in a population of permutations both children are permutations |
| Tsp.AfterMutation | TSP/TSP/gen_model.py:46-53 | the cities after `mutate` with one swap draw keep their length and are a permutation of the cities before |
| Tsp.Population.MutatePair | TSP/TSP/gen_model.py:85-86 | for two distinct children each holds its old cities after its own swap draw; for one route passed twice it holds its old cities after both swaps in order; a child whose coin came up has both caches unset, a child no coin touched keeps its caches; every route of the population and both children stay permutations of the catalog, and caches coherent with their cities stay coherent |
| Tsp.Population.MutateChild | TSP/TSP/gen_model.py:85-86 | one child's `mutate`: its cities become the old ones after the swap draw, its caches are unset on a successful coin and kept on a failed one, and it and every route of the population stay permutations of the catalog, with coherent caches staying coherent |
| Tsp.Population.Breed | TSP/TSP/gen_model.py:84-86 | one pass of the loop changes at most the two drawn parents; on a successful crossover coin the parents are untouched and the children are two distinct fresh routes with unset caches, holding the order-crossover children of the parents' cities after the swap draws; on a failed one the children are the parent objects, holding their old cities after the swap draws (after both swaps in order when one route was drawn twice); every mutated child has its caches unset, and a parent that no mutation coin touched keeps its cost and fitness caches; all routes stay permutations of the catalog, and if every route's caches were coherent with its cities they still are |
| Tsp.Population.ExtendPopulation | TSP/TSP/gen_model.py:84-87 | one pass appends exactly two routes to the collected list, fresh ones after a successful crossover coin and the drawn parent objects after a failed one, and every collected route stays a permutation of the catalog; the two new routes have unset caches after a successful crossover coin, and if every route of the population had caches coherent with its cities it still has; only routes of the population change, so every other collected route keeps its caches |
| Tsp.Population.Reproduce | TSP/TSP/gen_model.py:81-88 | the new population holds exactly `n` routes, all permutations of the catalog; pair `q` supplies positions `2q` and `2q+1` (the last pair cut to fit `n`), as fresh routes after a successful coin and as the old parent objects after a failed one; no other route appears; a population whose caches were coherent with its cities keeps coherent caches, because every new route is fresh and unset, reset by `mutate`, or an untouched parent |
| Binary.Value | GenMax/GenMax/GenMax.py:52-53 | the big-endian value of `len` bits is below `2^len` |
| Binary.ValueOfZeros | GenMax/GenMax/GenMax.py:52-53 | all-zero bits have value 0 |
| Binary.ValueOfOnes | GenMax/GenMax/GenMax.py:52-53 | all-one bits have value `2^len - 1` |
| Binary.RoundHalfEven | GenMax/GenMax/GenMax.py:55 | `round` is within one half of its argument, and a tie goes to the even neighbour |
| Binary.RoundInteger | GenMax/GenMax/GenMax.py:55 | `round` leaves integers alone |
| Binary.RoundMonotone | GenMax/GenMax/GenMax.py:55 | `round` is monotone, ties included |
| Binary.Position | GenMax/GenMax/GenMax.py:54-55 | the unrounded position `x_min + (x_max - x_min) * value / (2^len - 1)`; `PositionWithin` bounds it |
| Binary.Decode | GenMax/GenMax/GenMax.py:51-55 | with `x_min <= x_max` every decoded value lies in `[x_min, x_max]` |
| Binary.PositionWithin | GenMax/GenMax/GenMax.py:54-55 | the unrounded position lies in `[x_min, x_max]`, so its rounding does too |
| Binary.DecodeZeros | GenMax/GenMax/GenMax.py:51-55 | the all-zero chromosome decodes to `x_min` |
| Binary.DecodeOnes | GenMax/GenMax/GenMax.py:51-55 | the all-one chromosome decodes to `x_max` |
| Binary.PositionMonotone | GenMax/GenMax/GenMax.py:53-55 | before rounding, the position is non-decreasing in the unsigned value of the bits |
| Binary.DecodeMonotone | GenMax/GenMax/GenMax.py:51-55 | decoding is non-decreasing in the unsigned value of the bits |
| GenMax.FitnessOf | GenMax/GenMax/GenMax.py:16-18 | fitness is never negative, never below the objective, and equals the objective wherever it is positive |
| GenMax.ObjectivePeak | GenMax/GenMax/GenMax.py:13-14 | the parabola never exceeds 63, reached exactly at `x = 10` |
| GenMax.FitnessPeak | GenMax/GenMax/GenMax.py:13-18 | fitness lies in `[0, 63]` and is 63 exactly at `x = 10` |
| GenMax.FitnessPositiveRange | GenMax/GenMax/GenMax.py:5-18 | fitness is positive exactly on the integers of the configured range `[-1, 21]` |
| GenMax.FitnessOnDomain | GenMax/GenMax/GenMax.py:5-18 | on `[-1, 21]` fitness lies between 2.5 and 63 |
| GenMax.Objective | GenMax/GenMax/GenMax.py:13-14 | the parabola itself; `ObjectiveAroundPeak` gives its vertex form `63 - (x - 10)^2 / 2` and `ObjectivePeak` its maximum |
| GenMax.Flip | GenMax/GenMax/GenMax.py:20-21 | a coin from `[0, 1)` comes up when it is below the probability; `CrossoverCertain` and `FlippedNever` use this at probabilities 0 and 1 |
| GenMax.CrossoverCertain | GenMax/GenMax/GenMax.py:35-43 | with `pcross = 0` the children are always the parents' copies; with `pcross = 1` two or more genes are always cut at a position strictly inside, and fewer than two make `randint(1, lchrom - 1)` fail |
| GenMax.Crossover | GenMax/GenMax/GenMax.py:35-43 | `ValueError` exactly when the coin comes up with `lchrom < 2` (`randint(1, lchrom-1)` on an empty range); on a failed coin the parents' copies; on a successful coin, for parents of length `lchrom`, each child takes its own parent's genes before the cut and the other parent's from it |
| GenMax.SpliceAt | GenMax/GenMax/GenMax.py:40-41 | `parent1[:j] + parent2[j:]` and `parent2[:j] + parent1[j:]` have the parents' length and split at `j` as stated |
| GenMax.CutConserves | GenMax/GenMax/GenMax.py:38-43 | the children of bit strings are bit strings; at every locus the two children carry the two parents' genes; the pair's genes are conserved |
| GenMax.Flipped | GenMax/GenMax/GenMax.py:45-49 | mutation by a list of coins keeps the chromosome's length; `FlippedLoci` states what it does at each locus |
| GenMax.FlippedLoci | GenMax/GenMax/GenMax.py:45-49 | mutation keeps bit strings bit strings, changes a gene exactly where its coin came up, and applying it twice with the same coins restores the chromosome |
| GenMax.FlippedNever | GenMax/GenMax/GenMax.py:45-49 | with `pmutation = 0` and coins from `[0, 1)` no gene changes |
| GenMax.Mutate | GenMax/GenMax/GenMax.py:45-49 | the array ends up as its old contents with gene `i` inverted exactly where coin `i` came up, the rest unchanged |
| GenMax.Fitnesses | GenMax/GenMax/GenMax.py:83 | the list of fitness values has one entry per individual, in order |
| GenMax.Selected | GenMax/GenMax/GenMax.py:26-33 | the wheel stops at the first slot whose running total exceeds the pick, or at the last slot when none does |
| GenMax.SelectedHasFitness | GenMax/GenMax/GenMax.py:26-33 | with non-negative fitness and a pick in `[0, fitness_sum)` the chosen individual has positive fitness |
| GenMax.SelectedWhenAllZero | GenMax/GenMax/GenMax.py:27-33 | when every fitness is 0 the wheel falls through to the last individual |
| GenMax.RouletteWheelSelection | GenMax/GenMax/GenMax.py:26-33 | the scan returns the chromosome of the slot `Selected` names for `pick = u * fitness_sum` |
| Stats.Sum | GenMax/GenMax/GenMax.py:86 | `sum(s)`, added left to right; `SumAtMost`, `SumAtLeast` and `MeanBetween` state its bounds |
| Stats.Max | GenMax/GenMax/GenMax.py:84 | `max` is an element of the list that no element exceeds |
| Stats.Min | GenMax/GenMax/GenMax.py:85 | `min` is an element of the list that no element undercuts |
| Stats.MeanBetween | GenMax/GenMax/GenMax.py:84-86 | `min <= sum / len <= max` |
| Stats.MaxMinWithin | GenMax/GenMax/GenMax.py:84-85 | bounds on every value bound the recorded maximum and minimum |
| Stats.SumAtMost | GenMax/GenMax/GenMax.py:86 | values at most `b` sum to at most `len * b` |
| Stats.SumAtLeast | GenMax/GenMax/GenMax.py:86 | values at least `b` sum to at least `len * b` |
| GenMaxRun.Initial | GenMax/GenMax/GenMax.py:57-63 | one individual per drawn chromosome, holding that chromosome |
| GenMaxRun.InitializePopulation | GenMax/GenMax/GenMax.py:57-63 | `ValueError` exactly when chromosomes are empty and there is at least one; otherwise `popsize` individuals, the `i`-th holding the `i`-th drawn chromosome and the module's `fitness_function` of its decoding |
| GenMaxRun.Evaluated | GenMax/GenMax/GenMax.py:75-80 | evaluation keeps every chromosome and the population size |
| GenMaxRun.Evaluate | GenMax/GenMax/GenMax.py:75-80 | every stored fitness is the given fitness function of the decoded chromosome, chromosomes are unchanged, and `fitness_sum` is the sum of the stored fitness values |
| GenMaxRun.Mate | GenMax/GenMax/GenMax.py:93-96 | crossover then mutation fails exactly when crossover does, and otherwise yields two bit strings of length `lchrom` |
| GenMaxRun.Breed | GenMax/GenMax/GenMax.py:90-96 | one pass of the breeding loop fails exactly when its crossover coin comes up with `lchrom < 2`, and otherwise yields two bit strings of length `lchrom` |
| GenMaxRun.AnyFlipExists | GenMax/GenMax/GenMax.py:38-39 | "some crossover coin of the generation comes up" is the existential over its pairs |
| GenMaxRun.Bred | GenMax/GenMax/GenMax.py:88-98 | the pairs bred fail exactly when `lchrom < 2` and some coin comes up; otherwise there are two children per pair, all bit strings of length `lchrom` |
| GenMaxRun.BredPlaceholders | GenMax/GenMax/GenMax.py:98 | every bred child carries the placeholder fitness 0 |
| GenMaxRun.Offspring | GenMax/GenMax/GenMax.py:88-100 | the next population has exactly `popsize` members, all bit strings of length `lchrom`, unless a coin comes up with `lchrom < 2` |
| GenMaxRun.OffspringPlaceholders | GenMax/GenMax/GenMax.py:98-100 | every member of the next population has the placeholder fitness 0 |
| GenMaxRun.MatePair | GenMax/GenMax/GenMax.py:93-96 | crossing the parents and mutating each child's list in place yields `Mate` |
| GenMaxRun.BreedPair | GenMax/GenMax/GenMax.py:90-96 | two spins of the wheel, crossover and mutation yield `Breed` |
| GenMaxRun.NextGeneration | GenMax/GenMax/GenMax.py:88-100 | the breeding loop (extend by pairs while short, then cut to `popsize`) yields `Offspring` |
| GenMaxRun.Generation | GenMax/GenMax/GenMax.py:75-100 | one generation records max, min and mean of the evaluated fitness; what remains of the run is those three entries followed by the run from the bred population, or `ValueError` when breeding fails |
| GenMaxRun.Generations | GenMax/GenMax/GenMax.py:74-100 | the generation loop, appending one entry per generation to each history list, yields `Evolve` of the initial population: the recorded history, or `ValueError` when some generation fails |
| GenMaxRun.Evolve | GenMax/GenMax/GenMax.py:74-100 | the generation loop as a function: nothing after the last generation, `ValueError` on an empty population (`max([])`) or when breeding fails, otherwise the evaluated generation's max, min and mean followed by the run from its offspring; `EvolveFails`, `EvolveHistory` and `EvolveBounds` state its properties |
| GenMaxRun.Run | GenMax/GenMax/GenMax.py:65-100 | initialisation, `ValueError` on empty chromosomes, then `Evolve`; `RunOutcome` and `RunBounds` state its properties |
| GenMaxRun.GeneticAlgorithm | GenMax/GenMax/GenMax.py:65-100 | initialisation, failing on empty chromosomes, followed by the generation loop yields `Run` |
| GenMaxRun.EvolveFails | GenMax/GenMax/GenMax.py:74-100 | the generations fail exactly when there is at least one and either the population is empty (`max([])`) or some crossover coin comes up with `lchrom < 2` |
| GenMaxRun.EvolveHistory | GenMax/GenMax/GenMax.py:74-86 | a run that succeeds records exactly one entry per generation in each list, each with `min <= avg <= max` |
| GenMaxRun.EvolveBounds | GenMax/GenMax/GenMax.py:74-86 | bounds of the fitness function on the decoding range bound every recorded minimum and maximum |
| GenMaxRun.FitnessesWithin | GenMax/GenMax/GenMax.py:76-80 | bounds of the fitness function on the decoding range bound every evaluated fitness |
| GenMaxRun.RunOutcome | GenMax/GenMax/GenMax.py:65-100 | `genetic_algorithm` fails exactly when chromosomes are empty, or when some generation meets an empty population or a crossover coin with `lchrom < 2`; otherwise each history list has one entry per generation, each with `min <= avg <= max` |
| GenMaxRun.RunBounds | GenMax/GenMax/GenMax.py:65-86 | bounds of the fitness function on the decoding range bound every recorded minimum and maximum of a whole run |
| GenMaxRun.DefaultRun | GenMax/GenMax/GenMax.py:5-11 | with the module's own configuration the run never fails and records 50 entries per list, each with `2.5 <= min <= avg <= max <= 63` |

## Left out

- Plotting: `TSP/TSP/drawer.py` and `plot_results` (`GenMax/GenMax/GenMax.py:104-127`) draw with matplotlib. The model returns the history that `genetic_algorithm` would plot.
- `TSP/TSP/main.py` and the module-level call `GenMax/GenMax/GenMax.py:129` only wire constants together. `GenMaxRun.DefaultRun` states what the call would compute. `main.py` records `generations + 1` history entries: one before the loop and one per generation. That driver is not part of this model.
- The random source is not modelled. Every draw is a parameter, and a precondition states its range:
  - `flip` coins are reals;
  - `randint` cuts lie in their ranges;
  - `random.sample` gives two distinct positions and a permutation of the cities;
  - `random.choices` in `initialize_population` gives bit strings of length `lchrom`.
- The TSP parent selection `__roulette_wheel_parent_selection` (`TSP/TSP/gen_model.py:201-204`) draws its two parents with `random.choices`, weighted by fitness. The model takes the two draws as indices into the population.
- Tsp.Population.Breed: before drawing, the selection reads `route.fitness` of every route twice (`TSP/TSP/gen_model.py:202-203`). That computes and caches every route's cost and fitness and fills the cities' distance memos. The model's `Breed`, `OrderCrossover` and `Reproduce` make none of these writes, and a route that was never scored keeps unset caches.
- Tsp.Population.OrderCrossover: the selection's writes into the routes' caches and memos, described under `Breed` above, are not modelled.
- Tsp.Route.Mutate: requires two distinct positions in range when the coin comes up. With fewer than 2 cities `random.sample(range(n), 2)` raises `ValueError` (`TSP/TSP/gen_model.py:48`). That error path is not modelled.
- Tsp.Route.TravelCost: requires at least one city. On an empty route `self.cities[-1]` raises `IndexError` (`TSP/TSP/gen_model.py:42`). That error path is not modelled.
- Tsp.Route.Fitness: requires at least one city, for the same `IndexError` of `travel_cost` on an empty route. Numpy's RuntimeWarning on division by 0 is not modelled.
- `Population.get_fitness` and `Population.get_travel_costs` (`TSP/TSP/gen_model.py:90-96`) are statistics for `main.py` and are not modelled. `Route.__getitem__`, `__len__` and `__str__` are not modelled either.
- The commented-out crossover at `TSP/TSP/gen_model.py:99-179` is dead code.
- Floating point: all arithmetic is on exact reals. Rounding of sums, of `1 / travel_cost` and of the decoded position is not modelled. `np.sqrt` is the parameter `sqrt`, so the model fixes which number is passed to it, not its value.
- Tsp.Population.OrderCrossover: requires the cut ranges to be non-empty when the coin comes up. With fewer than 3 cities, `randint(1, n - 2)` raises `ValueError` in the source, and that error path is not modelled.
- Tsp.Population.Reproduce: states the permutation property, size, origin and cache coherence of every new route, but not the exact cities of each child. `OrderCrossover.Cross` and `Tsp.Route.Mutate` give those one operation at a time.
- Tsp.Population.ExtendPopulation: does not repeat which cities the two appended children hold. `Tsp.Population.Breed` states them. Repeating them here would make the `reproduce` loop reason about order crossover on every pass.
- Tsp.Route.TravelCost: computing the cost writes into the memos of the route's cities. The method's frame allows that, and the cost is stated only for cities drawn from a catalog with unique names and sound memos.
- GenMax.RouletteWheelSelection: requires a non-empty population, because the source reads `population[-1]` on fall-through. In `genetic_algorithm` an empty population has already failed at `max([])`.
- Binary.Decode: the bounds `x_min` and `x_max` are integers, as in the module's configuration (`GenMax/GenMax/GenMax.py:5-6`). The source accepts any numbers there, and decoding with fractional bounds is not modelled. The same holds for `Binary.Position` and for the bounds passed through `genetic_algorithm`.
- Binary.Decode: requires a non-empty chromosome. `int('', 2)` raises `ValueError`, and `GenMaxRun.InitializePopulation` models that error.
- `crossover` receives `pmutation` but never uses it. The model drops the parameter.
- `initialize_population` scores chromosomes with the module-level `fitness_function`, not the function passed to `genetic_algorithm`. The model keeps that distinction: `Initial` uses `FitnessOf`, while evaluation uses the parameter. Every first generation re-evaluates before reading fitness, so only the unread initial values differ.
- There is no uniform fallback in the function-maximising roulette. With total fitness 0 the wheel falls through to the last individual (`GenMax.SelectedWhenAllZero`).
- The first TSP cut comes from `rnd(1, n - 2)`, so it is at least 1 (`OrderCrossover.Cross`).
- Negative sizes (`popsize`, `generations`, `lchrom` below 0) are excluded by typing them as natural numbers. In the source they give empty ranges.
