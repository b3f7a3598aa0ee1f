# Genetic-algorithm maximiser of a two-variable function, in Dafny

This project models the search loop of `GeneticAlgorithm-MaxiimaFunction.py`. The program
maximises a function of two variables with a genetic algorithm. A candidate is a point
`[x, y]`. The program draws an initial population. Each generation, `evolve` builds the next
population: it ranks the candidates by fitness, keeps two elite parents, retains a block of the
next-best candidates, adds more candidates by chance, mutates some retained candidates in
place, and breeds children by midpoint crossover. The main section averages the fitness of
each generation (`grade`). It stops once that average has equalled the best average seen 30
times.

The model does not compute the objective. It is the argument `fit: Candidate -> real`. Every
call to `random` becomes an explicit input:

- a pair of unit draws per initial candidate;
- a `Draws` record per generation, holding the diversify and mutate Booleans, the mutated
  coordinate index, the unit draw of the redraw, and a pair of crossover draws per child.

With these inputs a generation is deterministic.

Modules, one per file:

- `Outcomes` (outcomes.dfy): the two exceptions the program can raise, as `Result` values.
- `Candidates` (candidates.dfy): `randomPoint`, `individual`, `population`.
- `Grading` (grading.dfy): `grade`, the mean fitness. It is a loop method, specified by a
  recursive sum.
- `Ranking` (ranking.dfy): the order that `sorted(..., reverse = True)` gives on
  `(fitness, [x, y])` tuples. Insertion sort computes it, and a lemma shows that the result is
  the only descending arrangement.
- `Evolution` (evolution.dfy): `evolve`. `Evolve` is a method whose diversify, mutate and
  crossover loops follow the source, and mutation works in place on an array. It is proved
  equal to the function `Evolution`, and the lemmas are stated about that function.
- `Search` (search.dfy): the main section. The class `Controller` holds `generation`,
  `bestFitness`, `fitnessCounter` and `fitnessHistory`, and `Tick` is one generation's update.
  `Step` is one pass of the loop, and `Run` is the whole loop, bounded by the number of draw
  records supplied. `Run` also returns, as a ghost value, the populations it went through.
  The predicate `Evolves` says that each population is `Evolution` of the one before it.

Behaviour worth knowing, all of it modelled as written:

- `randomPoint` stays inside `[lo, hi]` whenever `0 <= hi` and `2 * lo <= hi`. These
  conditions are sufficient. The second one is also necessary once `2 <= hi`: then every
  interval with `hi < 2 * lo` has a draw that lands above `hi` (`RandomPointOvershoots`). With
  `lo = 5`, `hi = 6` and `u = 0.5` it returns 9. Narrow intervals below 2, or entirely
  negative ones, can stay inside without the conditions. Both configured intervals, `[3, 10]`
  and `[4, 8]`, satisfy the conditions.
- `evolve` never needs a negative number of children, because `retained` only ever holds
  ranked positions from 2 onwards. It raises `ValueError` exactly when the population has more
  than two candidates, `int(len * retain)` is 0 and no diversify draw succeeds
  (`EvolutionFailsIff`). With `retain = 0.2` that is possible for populations of 3 or 4.
- A drop in average fitness neither resets nor increments the stagnation counter. The
  controller invariant states the counter exactly. It is the number of history entries equal
  to `bestFitness`, not counting the first entry that reached it. So the averages 1.0, 1.5,
  1.5, 1.2, 1.5 give the counters 0, 0, 1, 1, 2. The counter is not 0 at the end.
- The run reports the first candidate of the final population and the last history entry,
  which is that population's average. It does not report the fitness of that candidate.

## Model

| member | source | states |
|---|---|---|
| Candidates.RandomPoint | GeneticAlgorithm-MaxiimaFunction.py:12-18 | all three branches: a draw `u*hi+1` below `lo` is shifted up by `lo`; one above `hi` (and not below `lo`) becomes `hi`; one inside `[lo, hi]` is returned unchanged. Given `0 <= hi` and `lo <= hi` the result is at least `lo`; given `2*lo <= hi` it is at most `hi` |
| Candidates.RandomPointOvershoots | GeneticAlgorithm-MaxiimaFunction.py:12-18 | the upper bound needs `2*lo <= hi`: whenever `2 <= hi` and `lo <= hi < 2*lo`, the draw `u = (hi/2 - 1)/hi` is a valid unit draw whose result exceeds `hi` |
| Candidates.Individual | GeneticAlgorithm-MaxiimaFunction.py:20-21 | x is drawn with the x bounds and y with the y bounds; the individual lies in the box when both intervals satisfy the side condition |
| Candidates.Population | GeneticAlgorithm-MaxiimaFunction.py:23-25 | exactly `popSize` candidates; candidate i is the individual built from draw pair i; all lie in the box under the side condition |
| Grading.Grade | GeneticAlgorithm-MaxiimaFunction.py:38-48 | an empty population raises ZeroDivisionError (and only an empty one); otherwise the result is the sum of fitness over the population divided by its size, and equals `Mean` |
| Grading.Mean | GeneticAlgorithm-MaxiimaFunction.py:44-48 | the average fitness lies between the smallest and the largest fitness in the population |
| Grading.SumFitnessBetween | GeneticAlgorithm-MaxiimaFunction.py:44-46 | the running sum `SumFitness` of n fitness values, each in `[lo, hi]`, lies in `[n*lo, n*hi]` |
| Grading.AverageBetween | GeneticAlgorithm-MaxiimaFunction.py:44-48 | the sum divided by the size lies in `[lo, hi]` when every fitness value does |
| Ranking.RanksAtLeastIsTotalOrder | GeneticAlgorithm-MaxiimaFunction.py:64-65 | descending comparison of `(fitness, [x, y])` tuples is reflexive, total, antisymmetric and transitive on candidates |
| Ranking.Insert | GeneticAlgorithm-MaxiimaFunction.py:65 | inserting into a descending list gives a descending list with the same elements plus the inserted one |
| Ranking.Ranked | GeneticAlgorithm-MaxiimaFunction.py:64-65 | the ranking is a permutation of the population (same multiset, same length) in which fitness never increases and ties are ordered by `[x, y]` descending |
| Ranking.DescendingPermutationIsUnique | GeneticAlgorithm-MaxiimaFunction.py:65 | two descending arrangements of the same multiset are equal, so `Ranked` is exactly the list `sorted(..., reverse = True)` returns |
| Ranking.RankedHeadIsBest | GeneticAlgorithm-MaxiimaFunction.py:64-67 | the first ranked candidate ranks at least as high as, and has fitness at least that of, every candidate of the population |
| Ranking.RanksAtLeast | GeneticAlgorithm-MaxiimaFunction.py:64-65 | the descending order of `(fitness, [x, y])` tuples: it puts higher fitness first, and never puts lower fitness first |
| Evolution.EliteEnd | GeneticAlgorithm-MaxiimaFunction.py:67 | the slice `graded[:2]` ends at 2 or, for a shorter list, at its length |
| Evolution.RetainEnd | GeneticAlgorithm-MaxiimaFunction.py:68 | the slice `graded[2:retain_length+2]` ends at `retain_length + 2` or, if that is past the end, at the length; never before the elite block |
| Evolution.Selected | GeneticAlgorithm-MaxiimaFunction.py:66-73 | `retained` before mutation has at most `len - len(parents)` candidates, all taken from the ranked list past the elite block |
| Evolution.Children | GeneticAlgorithm-MaxiimaFunction.py:97-106 | exactly `desiredLength` children, each inheriting one coordinate from a retained candidate and the other from a parent |
| Evolution.Assemble | GeneticAlgorithm-MaxiimaFunction.py:90-110 | on success the new population has exactly `len(pop)` candidates and starts with the parents; the only failure is `randint` on an empty range |
| Evolution.Evolution | GeneticAlgorithm-MaxiimaFunction.py:50-110 | `evolve` as a function: on success the new population has as many candidates as the old one and starts with the two best-ranked candidates; the only failure is `randint` on an empty range |
| Evolution.RetainLength | GeneticAlgorithm-MaxiimaFunction.py:66 | `int(len * retain)` for a non-negative fraction is the greatest integer not above `len * retain` |
| Evolution.Kept | GeneticAlgorithm-MaxiimaFunction.py:71-73 | the chosen positions are strictly increasing, lie in the scanned range, have a true draw, and include every position in range whose draw is true |
| Evolution.RetainedIndices | GeneticAlgorithm-MaxiimaFunction.py:66-73 | the ranked positions that make up `retained` are strictly increasing and all lie at or past the elite block |
| Evolution.SelectedIsOrderedSubsequence | GeneticAlgorithm-MaxiimaFunction.py:66-73 | `retained` before mutation is `ranked[2:2+retainLength]` followed by an order-preserving choice of later positions, so it never overlaps `parents` |
| Evolution.SelectedLength | GeneticAlgorithm-MaxiimaFunction.py:66-73 | `retained` has at most `len - len(parents)` candidates, and is empty exactly when the retained block is empty and no later diversify draw is true |
| Evolution.Diversify | GeneticAlgorithm-MaxiimaFunction.py:71-73 | the loop appends, in order, exactly the later ranked candidates whose draw is true |
| Evolution.MutateOne | GeneticAlgorithm-MaxiimaFunction.py:79-85 | position 0 keeps y and sets x to `randomPoint` with the x bounds; position 1 keeps x and sets y to `randomPoint` with the y bounds; so at most one coordinate changes, and a candidate in the box stays there under the side condition |
| Evolution.Mutated | GeneticAlgorithm-MaxiimaFunction.py:77-85 | the mutated list has the same length; an entry whose mutate draw is false is unchanged; an entry whose draw is true is `MutateOne` of the original with its position and redraw; each entry differs from its original in at most one coordinate |
| Evolution.MutateRetained | GeneticAlgorithm-MaxiimaFunction.py:77-85 | the in-place loop leaves the array equal to `Mutated` of its old contents |
| Evolution.Cross | GeneticAlgorithm-MaxiimaFunction.py:100-105 | splitting two-gene lists at `int(2/2)` gives `[r.x, parents[0].y]` for parent slot 0 and `[parents[1].x, r.y]` for slot 1 |
| Evolution.ChildrenInherit | GeneticAlgorithm-MaxiimaFunction.py:97-106 | every child takes one coordinate from some (post-mutation) retained candidate and the other from a parent; children lie in the box when parents and retained do |
| Evolution.Breed | GeneticAlgorithm-MaxiimaFunction.py:97-106 | the `while` loop produces exactly the children that `Children` specifies, one per pick |
| Evolution.AssembleProperties | GeneticAlgorithm-MaxiimaFunction.py:90-110 | the result is `parents ++ retained ++ children` of length exactly `len(pop)`; it fails exactly when children are needed and `retained` is empty; it lies in the box when parents and retained do |
| Evolution.EvolutionKeepsSizeAndElite | GeneticAlgorithm-MaxiimaFunction.py:64-110 | the next generation has `len(pop)` candidates, starts with the top two ranked candidates, and its first candidate ranks at least as high as every old candidate |
| Evolution.EvolutionFailsIff | GeneticAlgorithm-MaxiimaFunction.py:66-98 | `evolve` raises exactly when `len(pop) > 2`, `int(len * retain) == 0` and no diversify draw is true |
| Evolution.RetainedStaysInBox | GeneticAlgorithm-MaxiimaFunction.py:66-85 | retained candidates, mutated or not, lie in the box when the ranked ones do |
| Evolution.RankedStaysInBox | GeneticAlgorithm-MaxiimaFunction.py:64-65 | ranking keeps every candidate of an in-box population in the box |
| Evolution.EvolutionStaysInBox | GeneticAlgorithm-MaxiimaFunction.py:50-110 | an in-box population evolves into an in-box population of the same size when both intervals satisfy the side condition |
| Evolution.Evolve | GeneticAlgorithm-MaxiimaFunction.py:50-110 | the step-by-step method computes `Evolution` and preserves the population size |
| Search.ConfiguredBoundsAreClampSafe | GeneticAlgorithm-MaxiimaFunction.py:131-134 | the configured intervals `[3, 10]` and `[4, 8]` satisfy the side condition of `randomPoint` |
| Search.ConfiguredEvolutionNeverFails | GeneticAlgorithm-MaxiimaFunction.py:50-98 | with the configured `retain = 0.2`, `evolve` of a population of at least 1500 candidates never fails, whatever the draws |
| Search.EvolvesExtend | GeneticAlgorithm-MaxiimaFunction.py:150 | a run of `evolve` extended by what `evolve` makes of its last population is still a run |
| Search.SameStep | GeneticAlgorithm-MaxiimaFunction.py:150 | two runs that agree on one generation agree on the next |
| Search.RunIsDetermined | GeneticAlgorithm-MaxiimaFunction.py:137-150 | two runs from the same initial population and draws agree on every generation both reach, so the populations `Run` reports are the only ones possible |
| Search.Averages | GeneticAlgorithm-MaxiimaFunction.py:140-165 | the history of a run has one entry per population |
| Search.AveragesAreMeans | GeneticAlgorithm-MaxiimaFunction.py:140-153 | history entry k is the average fitness `grade` returns for population k |
| Search.AveragesExtend | GeneticAlgorithm-MaxiimaFunction.py:153-165 | one more population appends its average to the history |
| Search.StagnationOfPrefixes | GeneticAlgorithm-MaxiimaFunction.py:147 | if `fitnessCounter < 30` held after every earlier generation and holds now, it has held after every generation so far, and that stays true when the history grows |
| Search.MaxOf | GeneticAlgorithm-MaxiimaFunction.py:157-158 | the best value is an entry of the history and no entry exceeds it |
| Search.OccurrencesAboveMax | GeneticAlgorithm-MaxiimaFunction.py:157-159 | a value strictly above every history entry does not occur in it, which is why a strict improvement restarts the counter at 0 |
| Search.AppendStep | GeneticAlgorithm-MaxiimaFunction.py:157-165 | appending one average updates the maximum and the occurrence count as the tick does |
| Search.Controller.constructor | GeneticAlgorithm-MaxiimaFunction.py:139-144 | generation 0 starts with best = average of the initial population, counter 0 and the one-entry history |
| Search.Controller.Tick | GeneticAlgorithm-MaxiimaFunction.py:147-165 | the tick increments the generation and appends the average; a strict improvement sets best and resets the counter, exact equality increments the counter, a regression changes neither; best never decreases and stays the maximum of the history, and the counter stays the number of repeats of it |
| Search.CounterBelowGeneration | GeneticAlgorithm-MaxiimaFunction.py:147-165 | in every valid state the counter is at most the generation number |
| Search.Step | GeneticAlgorithm-MaxiimaFunction.py:147-165 | one pass: if `evolve` of the current population fails with the next draws, the controller is unchanged and the run so far ends in that failure; otherwise the run grows by the new population, the new population has the same size, the history gains its average, and the controller keeps its invariant |
| Search.Run | GeneticAlgorithm-MaxiimaFunction.py:124-169 | only an empty population raises ZeroDivisionError. Otherwise the ghost result is a run of `evolve` from `population(...)`, with every generation of `popSize` candidates. On success: the history is the averages of those generations, one per generation; `best` is the first candidate of the last generation; the loop ended on 30 repeats or on running out of draws; the counter was below 30 after every earlier generation; the final fitness, best and counter satisfy the controller invariant; under the side condition `best` lies in the box. The only other failure is `evolve` failing (EmptyRange) on the last population, with the counter below 30 after every generation before it |

## Left out

- The body of `fitness` (line 35). It is floating-point `sin` and `log`, so the model takes the objective as the parameter `fit`. The header comment at line 5 states a different formula; the model does not try to reconcile the two.
- Python's `random` module. Every draw is an input. Draws are indexed by the position they decide rather than taken from one stream, which changes nothing observable because the draws are arbitrary. The `randint` draws are natural numbers taken modulo the range size.
- The `select` and `mutate` fractions of `evolve`. Their comparisons `select > random.random()` and `mutate > random.random()` are the Boolean draws `keep` and `mutate`.
- Evolution.Evolve: requires `0 <= retain`. For a negative fraction Python's `int()` truncates towards zero and the slices would take negative indices; the program only ever uses 0.2.
- IEEE float rounding. Values are `real`. The exact equality test of the controller (line 161) depends on float behaviour that the model does not reproduce.
- Search.Run: does not claim that `while fitnessCounter < 30` terminates, because nothing guarantees it. The loop also stops when the supplied draw records run out.
- Printing and plotting (lines 170-182), which are I/O. `Run` returns the values that would be printed.
- The commented-out test code after line 185, which is dead code.
- Object identity of the candidate lists. Candidates are values. Each candidate object of a population appears in it only once, and children are fresh lists. So mutating `retained` in place shows only in the retained entries and in children bred from them, and the array in `MutateRetained` captures that.
